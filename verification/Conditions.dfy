/**
 What the sixteen condition fields mean (the table that arm_init in arm_dynarec.c builds): on the flags that a
 comparison leaves they are the relations between the two numbers compared.
 */
module Conditions {
  import opened Words
  import opened Flags
  import opened Opcodes
  import opened Interpreter
  import opened HostA64

  /** The flags that comparing `a` with `b` leaves. */
  function Compared(a: Word, b: Word): Nzcv { FlagsSub(a, b, Sub(a, b)) }

  lemma NibbleParts(f: Nzcv)
    ensures var n := Nibble(f);
            (n / 8 == 1 <==> f.n) && (n / 4 % 2 == 1 <==> f.z) && (n / 2 % 2 == 1 <==> f.c) && (n % 2 == 1 <==> f.v)
  {
  }

  /** After a comparison: equality and the unsigned order. */
  lemma UnsignedOrder(a: Word, b: Word)
    ensures var n := Nibble(Compared(a, b));
            && (Condition(0, n) <==> a == b) && (Condition(1, n) <==> a != b)
            && (Condition(2, n) <==> a >= b) && (Condition(3, n) <==> a < b)
            && (Condition(8, n) <==> a > b) && (Condition(9, n) <==> a <= b)
  {
    hide Nibble;
    NibbleParts(Compared(a, b));
  }

  /** The difference of the two's complement readings does not fit into a word. */
  predicate OutOfRange(x: int) { x < -TOP || x >= TOP }

  /** After a comparison: the signed order, and the sign and the overflow of the difference. */
  lemma SignedOrder(a: Word, b: Word)
    ensures var n, d := Nibble(Compared(a, b)), Signed(a) - Signed(b);
            && (Condition(4, n) <==> Signed(Sub(a, b)) < 0) && (Condition(5, n) <==> Signed(Sub(a, b)) >= 0)
            && (Condition(6, n) <==> OutOfRange(d)) && (Condition(7, n) <==> !OutOfRange(d))
            && (Condition(10, n) <==> d >= 0) && (Condition(11, n) <==> d < 0)
            && (Condition(12, n) <==> d > 0) && (Condition(13, n) <==> d <= 0)
  {
    hide Nibble;
    NibbleParts(Compared(a, b));
  }

  /** One flag of any flag word, whatever left it there. */
  lemma OneFlag(f: Nzcv)
    ensures var n := Nibble(f);
            && (Condition(0, n) <==> f.z) && (Condition(2, n) <==> f.c) && (Condition(4, n) <==> f.n) && (Condition(6, n) <==> f.v)
            && (Condition(8, n) <==> f.c && !f.z) && (Condition(10, n) <==> f.n == f.v) && (Condition(12, n) <==> Condition(10, n) && !f.z)
  {
    hide Nibble;
    NibbleParts(f);
  }

  /** Conditions come in pairs, one the opposite of the other: the last pair is always and never. */
  lemma Opposites(k: nat, n: nat)
    requires k < 8 && n < 16
    ensures Condition(2 * k + 1, n) <==> !Condition(2 * k, n)
    ensures Condition(14, n) && !Condition(15, n)
  {
  }

  /** The relation between two words compared that a condition field stands for. */
  predicate Holds(cond: nat, a: Word, b: Word) {
    match cond
    case 0 => a == b
    case 1 => a != b
    case 2 => a >= b
    case 3 => a < b
    case 4 => (a - b) % MOD >= TOP
    case 5 => (a - b) % MOD < TOP
    case 6 => OutOfRange(Signed(a) - Signed(b))
    case 7 => !OutOfRange(Signed(a) - Signed(b))
    case 8 => a > b
    case 9 => a <= b
    case 10 => Signed(a) >= Signed(b)
    case 11 => Signed(a) < Signed(b)
    case 12 => Signed(a) > Signed(b)
    case 13 => Signed(a) <= Signed(b)
    case 14 => true
    case _ => false
  }

  /** After a comparison every condition is its relation. */
  lemma ConditionMeans(cond: nat, a: Word, b: Word)
    requires cond < 16
    ensures Condition(cond, Nibble(Compared(a, b))) <==> Holds(cond, a, b)
  {
    hide Condition; hide Nibble; hide Compared; hide Signed; hide OutOfRange;
    UnsignedOrder(a, b);
    SignedOrder(a, b);
    SignOfDifference(a, b);
    Opposites(7, Nibble(Compared(a, b)));
  }

  lemma SignOfDifference(a: Word, b: Word)
    ensures Signed(Sub(a, b)) < 0 <==> (a - b) % MOD >= TOP
  {
    RemainderUnique(a - b, MOD, if a < b then -1 else 0, Sub(a, b));
  }
}
