/**
 The barrel shifter (shift3, shift4 and shift5 in arm_dynarec.c, arm_imm_cflag in arm_common.h): what its value
 and its carry are, as arithmetic on the number shifted and as the bit that leaves it last.
 */
module Shifter {
  import opened Words
  import opened Flags
  import opened Opcodes
  import opened Interpreter

  /** How many places the operand is shifted; zero in the field means 32 for a shift to the right. */
  function Places(op: Word, r: Regs): nat {
    if ShiftByRegister(op) then r[Rs(op)] % 0x100
    else if ShiftAmount(op) == 0 && (ShiftKind(op) == 1 || ShiftKind(op) == 2) then 32
    else ShiftAmount(op)
  }

  /** Rotation by one place through the carry, which a rotation by zero in the field stands for. */
  predicate ThroughCarry(op: Word) { !ShiftByRegister(op) && ShiftKind(op) == 3 && ShiftAmount(op) == 0 }

  /** The number, `k` places to the right and what leaves it back in at the left. */
  function Rotated(w: Word, k: nat): int { w / Pow2(k % 32) + w % Pow2(k % 32) * Pow2(32 - k % 32) }

  lemma {:induction false} PowSum(a: nat, b: nat)
    ensures Pow2(a) * Pow2(b) == Pow2(a + b)
    decreases a
  {
    hide Pow2;
    PowUnfold(a);
    PowUnfold(a + b);
    if a > 0 {
      PowSum(a - 1, b);
      assert 2 * Pow2(a - 1) * Pow2(b) == 2 * (Pow2(a - 1) * Pow2(b));
    }
  }

  /** What a shift to the left keeps are the low bits. */
  lemma KeepsLow(w: Word, k: nat)
    requires k <= 32
    ensures w * Pow2(32 - k) % MOD == w % Pow2(k) * Pow2(32 - k)
  {
    hide Pow2;
    Pow32();
    PowSum(k, 32 - k);
    var p, s := Pow2(k), Pow2(32 - k);
    var q, r := w / p, w % p;
    assert w * s == (p * q + r) * s == (p * s) * q + r * s by { Spread(p, q, r, s); }
    ScaledBelow(r, p, s);
    RemainderUnique(w * s, MOD, q, r * s);
  }

  lemma Spread(p: int, q: int, r: int, s: int)
    ensures (p * q + r) * s == (p * s) * q + r * s
  {
    assert (p * q + r) * s == p * q * s + r * s;
    assert p * q * s == (p * s) * q;
  }

  lemma ScaledBelow(r: int, p: int, s: int)
    requires 0 <= r < p && s > 0
    ensures 0 <= r * s < p * s
  {
    assert p * s - r * s == (p - r) * s;
    assert (p - r) * s > 0;
    assert r * s >= 0;
  }

  lemma RorRotates(w: Word, n: nat)
    ensures Ror(w, n) == Rotated(w, n)
  {
    hide Lsl; hide Lsr; hide OrW; hide Pow2;
    var k := n % 32;
    if k == 0 {
      RorZero(w);
      RotatedWhole(w, n);
    } else {
      RotatedParts(w, k);
    }
  }

  lemma RotatedParts(w: Word, k: nat)
    requires 0 < k < 32
    ensures OrW(Lsr(w, k), Lsl(w, 32 - k)) == w / Pow2(k) + w % Pow2(k) * Pow2(32 - k)
  {
    hide Lsl; hide Lsr; hide Or; hide Pow2;
    LsrDivides(w, k);
    LslTimes(w, 32 - k);
    KeepsLow(w, k);
    Pow32();
    PowSum(k, 32 - k);
    HighPart(w, Pow2(k), Pow2(32 - k));
    ShlTimes(w % Pow2(k), 32 - k);
    OrDisjoint(w / Pow2(k), w % Pow2(k), 32 - k);
  }

  lemma HighPart(w: int, p: int, s: int)
    requires 0 <= w < p * s && p > 0 && s >= 0
    ensures 0 <= w / p < s
  {
    var q := w / p;
    assert w == p * q + w % p;
    if s <= q { Mono(p, s, q); }
  }

  lemma Mono(p: int, a: int, b: int)
    requires p >= 0 && a <= b
    ensures p * a <= p * b
  {
    assert p * b == p * a + p * (b - a);
  }

  /** From 32 places on nothing is left. */
  lemma AllGone(w: Word, n: nat)
    requires n >= 32
    ensures w * Pow2(n) % MOD == 0 && w / Pow2(n) == 0 && Signed(w) / Pow2(n) == (if Neg(w) then -1 else 0)
  {
    hide Pow2;
    Pow32();
    PowSum(32, n - 32);
    PowMono(32, n);
    var p, k := Pow2(n), Pow2(n - 32);
    assert w * (MOD * k) == MOD * (w * k);
    RemainderUnique(w * p, MOD, w * k, 0);
    QuotientUnique(w, p, 0, w);
    QuotientUnique(Signed(w), p, if Neg(w) then -1 else 0, if Neg(w) then Signed(w) + p else w);
  }

  /** The value of the shifter operand. */
  lemma ShifterValue(cfg: Config, op: Word, r: Regs)
    ensures var w, v, n := r[Rm(op)], Shifted(cfg, op, r), Places(op, r);
            if ThroughCarry(op) then v == w / 2 + (if CarrySet(r[cfg.Psr()]) then TOP else 0)
            else if ShiftKind(op) == 0 then v == w * Pow2(n) % MOD
            else if ShiftKind(op) == 1 then v == w / Pow2(n)
            else if ShiftKind(op) == 2 then v == Signed(w) / Pow2(n) % MOD
            else v == Rotated(w, n)
    ensures ShiftedWithCarry(cfg, op, r).0 == Shifted(cfg, op, r)
  {
    hide Lsl; hide Lsr; hide Floor; hide Ror; hide Pow2; hide Rm; hide Rs; hide Rotated; hide CarrySet;
    var w, n := r[Rm(op)], Places(op, r);
    if Unshifted(op) { UnshiftedFields(op); }
    PowUnfold(0);
    LslTimes(w, n);
    LsrDivides(w, n);
    FloorDivides(Signed(w), n);
    RorRotates(w, n);
    if n >= 32 { AllGone(w, n); }
    Whole(w);
    if n % 32 == 0 { RotatedWhole(w, n); }
  }

  lemma Whole(w: Word)
    ensures w * 1 % MOD == w && w / 1 == w && Signed(w) / 1 % MOD == w
  {
  }

  lemma RotatedWhole(w: Word, n: nat)
    requires n % 32 == 0
    ensures Rotated(w, n) == w
  {
    PowUnfold(0);
    assert w % 1 == 0 && w / 1 == w;
  }

  lemma UnshiftedFields(op: Word)
    requires Unshifted(op)
    ensures !ShiftByRegister(op) && ShiftKind(op) == 0 && ShiftAmount(op) == 0
  {
    var q, t: int := op / 0x10, op % 0x10;
    var k := q / 0x100;
    assert q == 0x100 * k;
    QuotientUnique(op, 0x20, 0x80 * k, t);
    QuotientUnique(op, 0x80, 0x20 * k, t);
    RemainderUnique(0x100 * k, 2, 0x80 * k, 0);
    RemainderUnique(0x80 * k, 4, 0x20 * k, 0);
    RemainderUnique(0x20 * k, 32, k, 0);
  }

  // ---- the carry ----

  /** The bit that leaves last, where there is one. */
  lemma ShifterCarry(cfg: Config, op: Word, r: Regs)
    ensures var w, carry, n := r[Rm(op)], ShiftedWithCarry(cfg, op, r).1, Places(op, r);
            if ThroughCarry(op) then carry == Becomes(w % 2 == 1)
            else if n == 0 then carry == Unchanged
            else if ShiftKind(op) == 0 then carry == Becomes(n <= 32 && BitAt(w, 32 - n))
            else if ShiftKind(op) == 1 then carry == Becomes(n <= 32 && BitAt(w, n - 1))
            else if ShiftKind(op) == 2 then carry == Becomes(BitAt(w, if n < 32 then n - 1 else 31))
            else carry == Becomes(BitAt(w, (n - 1) % 32))
  {
    hide Lsl; hide Lsr; hide Asr; hide Ror; hide Pow2; hide Rm; hide Rs; hide BitAt; hide CarrySet; hide Neg; hide Rrx; hide SignFill;
    var w, n := r[Rm(op)], Places(op, r);
    if Unshifted(op) { UnshiftedFields(op); }
    EndBits(w);
    if 0 < n <= 32 {
      LslCarry(w, n);
      LsrCarry(w, n);
      AsrCarry(w, n);
    }
    if n > 0 { RorCarry(w, n); }
  }

  /** The bits at the two ends of a word. */
  lemma EndBits(w: Word)
    ensures (BitAt(w, 31) <==> Neg(w)) && (BitAt(w, 0) <==> w % 2 == 1)
  {
    PowersOfInterest();
    PowUnfold(0);
    hide Pow2;
  }

  lemma LslCarry(w: Word, n: nat)
    requires 0 < n <= 32
    ensures Neg(Lsl(w, n - 1)) <==> BitAt(w, 32 - n)
  {
    hide Lsl; hide Pow2;
    LslTimes(w, n - 1);
    KeepsLow(w, 33 - n);
    PowUnfold(33 - n);
    PowersOfInterest();
    PowSum(32 - n, n - 1);
    TopOfLow(w, Pow2(32 - n), Pow2(n - 1));
  }

  /** Of the low bits, moved up, the top one is bit log2(p). */
  lemma TopOfLow(w: nat, p: nat, s: nat)
    requires p > 0 && s > 0 && p * s == TOP
    ensures w % (2 * p) * s >= TOP <==> w / p % 2 == 1
  {
    var l := w % (2 * p);
    var q := w / (2 * p);
    assert w == 2 * p * q + l;
    var h := if l >= p then 1 else 0;
    assert 2 * p * q == p * (2 * q);
    assert p * (2 * q) + p * h == p * (2 * q + h);
    QuotientUnique(w, p, 2 * q + h, l - p * h);
    if l >= p { Grow(p, l, s); } else { ScaledBelow(l, p, s); }
  }

  lemma Grow(a: nat, b: nat, s: nat)
    requires a <= b
    ensures a * s <= b * s
  {
    assert b * s == a * s + (b - a) * s;
  }

  lemma LsrCarry(w: Word, n: nat)
    requires 0 < n <= 32
    ensures Lsr(w, n - 1) % 2 == 1 <==> BitAt(w, n - 1)
  {
    hide Lsr; hide Pow2;
    LsrDivides(w, n - 1);
  }

  lemma AsrCarry(w: Word, n: nat)
    requires 0 < n <= 32
    ensures Asr(w, n - 1) % 2 == 1 <==> BitAt(w, n - 1)
  {
    hide Floor; hide Pow2;
    FloorDivides(Signed(w), n - 1);
    PowSum(n - 1, 33 - n);
    Pow32();
    PowUnfold(33 - n);
    SameParity(w, Pow2(n - 1), Pow2(32 - n));
    EvenModulus(Signed(w) / Pow2(n - 1));
  }

  /** Subtracting 2^32 does not change the bits below the 32nd. */
  lemma SameParity(w: Word, p: nat, s: nat)
    requires p > 0 && p * (2 * s) == MOD
    ensures Signed(w) / p % 2 == w / p % 2
  {
    if Neg(w) {
      var q, t := w / p, w % p;
      assert p * (q - 2 * s) == p * q - p * (2 * s);
      QuotientUnique(w - MOD, p, q - 2 * s, t);
      RemainderUnique(q - 2 * s, 2, q / 2 - s, q % 2);
    }
  }

  lemma EvenModulus(x: int)
    ensures x % MOD % 2 == x % 2
  {
    var q, t := x / MOD, x % MOD;
    RemainderUnique(x, 2, 0x8000_0000 * q + t / 2, t % 2);
  }

  lemma RorCarry(w: Word, n: nat)
    requires n > 0
    ensures Neg(Ror(w, n)) <==> BitAt(w, (n - 1) % 32)
  {
    hide Ror; hide Pow2; hide Rotated; hide BitAt;
    RorRotates(w, n);
    var k := n % 32;
    if k == 0 {
      RotatedWhole(w, n);
      assert (n - 1) % 32 == 31;
      EndBits(w);
    } else {
      assert (n - 1) % 32 == k - 1;
      RotatedTop(w, n, k);
    }
  }

  lemma RotatedTop(w: Word, n: nat, k: nat)
    requires 0 < k < 32 && n % 32 == k
    ensures Rotated(w, n) >= TOP <==> BitAt(w, k - 1)
  {
    hide Pow2;
    var p, s := Pow2(k - 1), Pow2(32 - k);
    PowUnfold(k);
    PowersOfInterest();
    PowSum(k - 1, 32 - k);
    Pow32();
    PowSum(k, 32 - k);
    HighPart(w, Pow2(k), s);
    TopOfLow(w, p, s);
    var h := w % Pow2(k);
    if h * s < TOP { ScaledGap(h, p, s); }
  }

  /** A multiple of `s` below p * s leaves room for anything below `s`. */
  lemma ScaledGap(h: nat, p: nat, s: nat)
    requires h * s < p * s
    ensures h * s + s <= p * s
  {
    if h >= p { Grow(p, h, s); }
    assert (p - h) * s == p * s - h * s;
    if h < p { Grow(1, p - h, s); }
  }

  // ---- immediates ----

  /** Eight bits, rotated to the right by twice the field. */
  function RotatedImmediate(op: Word): (v: Word) {
    ImmediateValue(op);
    Rotated(op % 0x100, 2 * (op / 0x100 % 0x10))
  }

  lemma ImmediateValue(op: Word)
    ensures ImmediateOperand(op) == Rotated(op % 0x100, 2 * (op / 0x100 % 0x10))
  {
    hide Ror; hide Rotated;
    RorRotates(Imm8(op), Rotation(op));
  }
}
