/**
 Thirty-two-bit machine words as integers below 2^32, with the wrap-around of C's
 `uint32_t` written out, and the bitwise operations defined bit by bit.

 Masking with a run of low bits and merging disjoint fields are the two bitwise
 idioms the rest of the project relies on; they are proved equal to remainder and
 addition here.
 */
module Words {

  const MOD: int := 0x1_0000_0000
  const TOP: int := 0x8000_0000

  type Word = x: int | 0 <= x < 0x1_0000_0000

  function Pow2(n: nat): (p: nat)
    ensures p > 0
  {
    if n == 0 then 1 else 2 * Pow2(n - 1)
  }

  // ---- arithmetic modulo 2^32 ----

  function Add(a: Word, b: Word): Word { if a + b < MOD then a + b else a + b - MOD }

  function Sub(a: Word, b: Word): Word { if a < b then a - b + MOD else a - b }

  function Mul(a: Word, b: Word): Word { (a * b) % MOD }

  function Not(a: Word): Word { MOD - 1 - a }

  /** Bit 31. */
  predicate Neg(a: Word) { a >= TOP }

  /** The two's complement reading of a word. */
  function Signed(a: Word): int { if Neg(a) then a - MOD else a }

  // ---- bitwise operations ----

  function And(a: nat, b: nat): (r: nat)
    ensures r <= a && r <= b
    decreases a
  {
    if a == 0 then 0 else (if a % 2 == 1 && b % 2 == 1 then 1 else 0) + 2 * And(a / 2, b / 2)
  }

  function Or(a: nat, b: nat): (r: nat)
    ensures a <= r <= a + b && b <= r
    decreases a + b
  {
    if a == 0 then b else if b == 0 then a
    else (if a % 2 == 1 || b % 2 == 1 then 1 else 0) + 2 * Or(a / 2, b / 2)
  }

  function Xor(a: nat, b: nat): (r: nat)
    ensures r <= a + b
    decreases a + b
  {
    if a == 0 then b else if b == 0 then a
    else (if a % 2 != b % 2 then 1 else 0) + 2 * Xor(a / 2, b / 2)
  }

  /** Or and Xor of words are words. */
  lemma {:induction false} BitwiseFits(a: nat, b: nat, n: nat)
    requires a < Pow2(n) && b < Pow2(n)
    ensures Or(a, b) < Pow2(n) && Xor(a, b) < Pow2(n)
  {
    if a != 0 && b != 0 {
      BitwiseFits(a / 2, b / 2, n - 1);
    }
  }

  /** The top bit of each operation is the operation on the top bits. */
  lemma {:induction false} BitwiseTop(a: nat, b: nat, n: nat)
    requires a < Pow2(n + 1) && b < Pow2(n + 1)
    ensures And(a, b) >= Pow2(n) <==> a >= Pow2(n) && b >= Pow2(n)
    ensures Or(a, b) >= Pow2(n) <==> a >= Pow2(n) || b >= Pow2(n)
    ensures Xor(a, b) >= Pow2(n) <==> (a >= Pow2(n)) != (b >= Pow2(n))
  {
    hide And; hide Or; hide Xor; hide Pow2;
    PowUnfold(n);
    PowUnfold(n + 1);
    if n != 0 {
      BitwiseTop(a / 2, b / 2, n - 1);
      Halves(a, b);
      HalfTop(a, Pow2(n - 1));
      HalfTop(b, Pow2(n - 1));
      HalfTop(And(a, b), Pow2(n - 1));
      HalfTop(Or(a, b), Pow2(n - 1));
      HalfTop(Xor(a, b), Pow2(n - 1));
    } else {
      OneBit(a, b);
    }
  }

  lemma {:induction false} Halves(a: nat, b: nat)
    ensures And(a, b) / 2 == And(a / 2, b / 2) && Or(a, b) / 2 == Or(a / 2, b / 2) && Xor(a, b) / 2 == Xor(a / 2, b / 2)
  {
    hide And; hide Or; hide Xor;
    AndHalves(a, b); OrHalves(a, b); XorHalves(a, b);
  }

  lemma HalfTop(v: nat, p: nat)
    ensures v >= 2 * p <==> v / 2 >= p
  {
  }

  lemma OneBit(a: nat, b: nat)
    requires a < 2 && b < 2
    ensures And(a, b) == (if a == 1 && b == 1 then 1 else 0) && Or(a, b) == (if a == 1 || b == 1 then 1 else 0)
    ensures Xor(a, b) == if a != b then 1 else 0
  {
  }

  lemma {:induction false} XorHalves(a: nat, b: nat)
    ensures Xor(a, b) == (if a % 2 != b % 2 then 1 else 0) + 2 * Xor(a / 2, b / 2)
  {
  }

  lemma TopBits(a: Word, b: Word)
    ensures Neg(AndW(a, b)) <==> Neg(a) && Neg(b)
    ensures Neg(OrW(a, b)) <==> Neg(a) || Neg(b)
    ensures Neg(XorW(a, b)) <==> Neg(a) != Neg(b)
  {
    Pow32();
    assert Pow2(32) == 2 * Pow2(31);
    BitwiseTop(a, b, 31);
  }

  function AndW(a: Word, b: Word): Word { And(a, b) }

  function OrW(a: Word, b: Word): Word {
    Pow32(); BitwiseFits(a, b, 32);
    Or(a, b)
  }

  function XorW(a: Word, b: Word): Word {
    Pow32(); BitwiseFits(a, b, 32);
    Xor(a, b)
  }

  lemma Pow32()
    ensures Pow2(32) == MOD
  {
    assert Pow2(8) == 256;
    assert Pow2(16) == 0x1_0000;
    assert Pow2(24) == 0x100_0000;
  }

  lemma PowersOfInterest()
    ensures Pow2(10) == 0x400 && Pow2(24) == 0x100_0000 && Pow2(28) == 0x1000_0000 && Pow2(30) == 0x4000_0000 && Pow2(31) == TOP
  {
    Pow32();
    assert Pow2(30) == 4 * Pow2(28) && Pow2(32) == 4 * Pow2(30);
    assert Pow2(8) == 256;
  }

  // ---- shifts, one place at a time ----

  function Lsl(a: Word, n: nat): Word decreases n { if n == 0 then a else Lsl(Add(a, a), n - 1) }

  function Lsr(a: Word, n: nat): Word decreases n { if n == 0 then a else Lsr(a / 2, n - 1) }

  /** Arithmetic shift right keeps the sign: halving rounds towards minus infinity. */
  function Asr(a: Word, n: nat): Word { Floor(Signed(a), n) % MOD }

  function Floor(x: int, n: nat): int decreases n { if n == 0 then x else Floor(x / 2, n - 1) }

  function Ror(a: Word, n: nat): Word { OrW(Lsr(a, n % 32), Lsl(a, (32 - n % 32) % 32)) }

  /** Shifting right by `n` places divides by 2^n. */
  lemma {:induction false} LsrDivides(a: Word, n: nat)
    ensures Lsr(a, n) == a / Pow2(n)
    decreases n
  {
    if n != 0 {
      LsrDivides(a / 2, n - 1);
      DivDouble(a, Pow2(n - 1));
    }
  }

  lemma DivDouble(a: nat, p: nat)
    requires p > 0
    ensures a / (2 * p) == (a / 2) / p
  {
    var q, r := (a / 2) / p, (a / 2) % p;
    assert a / 2 == p * q + r;
    assert (2 * p) * q == 2 * (p * q);
    QuotientUnique(a, 2 * p, q, a % 2 + 2 * r);
  }

  lemma QuotientUnique(a: int, d: int, q: int, r: int)
    requires d > 0 && 0 <= r < d && a == d * q + r
    ensures a / d == q
  {
    var q', r' := a / d, a % d;
    assert a == d * q' + r';
    if q' > q { Gap(d, q, q'); }
    if q' < q { Gap(d, q', q); }
  }

  /** A shift to the left multiplies by a power of two, modulo 2^32. */
  lemma {:induction false} LslTimes(a: Word, n: nat)
    ensures Lsl(a, n) == a * Pow2(n) % MOD
    decreases n
  {
    hide Add;
    if n > 0 {
      LslTimes(Add(a, a), n - 1);
      Twice(a, Pow2(n - 1));
    }
  }

  lemma Twice(a: Word, p: nat)
    ensures Add(a, a) * p % MOD == a * (2 * p) % MOD
  {
    var j := if a + a < MOD then 0 else 1;
    var q, r := Add(a, a) * p / MOD, Add(a, a) * p % MOD;
    assert a * (2 * p) == (Add(a, a) + MOD * j) * p == Add(a, a) * p + MOD * (j * p);
    RemainderUnique(a * (2 * p), MOD, q + j * p, r);
  }

  /** An arithmetic shift divides, rounding down. */
  lemma {:induction false} FloorDivides(x: int, n: nat)
    ensures Floor(x, n) == x / Pow2(n)
    decreases n
  {
    hide Pow2;
    PowUnfold(n);
    if n != 0 {
      FloorDivides(x / 2, n - 1);
      FloorHalves(x, Pow2(n - 1));
    }
  }

  lemma FloorHalves(x: int, p: nat)
    requires p > 0
    ensures x / (2 * p) == (x / 2) / p
  {
    var q, r := (x / 2) / p, (x / 2) % p;
    assert x / 2 == p * q + r;
    assert (2 * p) * q == 2 * (p * q);
    QuotientUnique(x, 2 * p, q, x % 2 + 2 * r);
  }

  /** The arithmetic shift by 31 that stands for a shift by 32 replicates the sign. */
  lemma AsrSign(a: Word)
    ensures Asr(a, 31) == if Neg(a) then MOD - 1 else 0
  {
    assert Pow2(31) == TOP by { Pow32(); assert Pow2(32) == 2 * Pow2(31); }
    FloorSign(Signed(a), 31);
  }

  lemma {:induction false} FloorSign(x: int, n: nat)
    requires 0 <= x + Pow2(n) && x < Pow2(n)
    ensures Floor(x, n) == if x < 0 then -1 else 0
    decreases n
  {
    if n != 0 { FloorSign(x / 2, n - 1); }
  }

  // ---- masks are remainders, disjoint merges are sums ----

  lemma {:induction false} AndLow(a: nat, n: nat)
    ensures And(a, Pow2(n) - 1) == a % Pow2(n)
  {
    hide And; hide Pow2;
    assert n > 0 ==> Pow2(n) == 2 * Pow2(n - 1) by { PowUnfold(n); }
    if n == 0 {
      PowUnfold(0);
      AndZero(a);
    } else {
      AndLow(a / 2, n - 1);
      AndOnes(a, Pow2(n - 1));
    }
  }

  lemma PowUnfold(n: nat)
    ensures Pow2(n) == if n == 0 then 1 else 2 * Pow2(n - 1)
  {
  }

  lemma {:induction false} AndOnes(a: nat, p: nat)
    requires p > 0 && And(a / 2, p - 1) == (a / 2) % p
    ensures And(a, 2 * p - 1) == a % (2 * p)
  {
    hide And;
    Odd(p);
    AndHalves(a, 2 * p - 1);
    DivModDouble(a, p);
  }

  lemma Odd(p: nat)
    requires p > 0
    ensures (2 * p - 1) / 2 == p - 1 && (2 * p - 1) % 2 == 1
  {
  }

  lemma AndZero(a: nat)
    ensures And(a, 0) == 0
  {
  }

  lemma DivModDouble(a: nat, p: nat)
    requires p > 0
    ensures a % (2 * p) == a % 2 + 2 * ((a / 2) % p)
  {
    var q, r := (a / 2) / p, (a / 2) % p;
    assert a / 2 == p * q + r;
    assert (2 * p) * q == 2 * (p * q);
    RemainderUnique(a, 2 * p, q, a % 2 + 2 * r);
  }

  lemma RemainderUnique(a: int, d: int, q: int, r: int)
    requires d > 0 && 0 <= r < d && a == d * q + r
    ensures a % d == r
  {
    var q', r' := a / d, a % d;
    assert a == d * q' + r';
    if q' > q { Gap(d, q, q'); }
    if q' < q { Gap(d, q', q); }
  }

  lemma Gap(d: int, q: int, q': int)
    requires d > 0 && q < q'
    ensures d * q' >= d * q + d
  {
    assert d * q' == d * q + d * (q' - q);
    assert d * (q' - q) == d + d * (q' - q - 1);
    assert d * (q' - q - 1) >= 0;
  }

  lemma {:induction false} PowMono(a: nat, b: nat)
    requires a <= b
    ensures Pow2(a) <= Pow2(b)
    decreases b
  {
    if a < b { PowMono(a, b - 1); }
  }

  /** A single bit moved up by a left shift. */
  lemma {:induction false} LslBit(b: nat, n: nat, k: nat)
    requires b < 2 && n + k <= 31
    ensures b * Pow2(k) < MOD && Lsl(b * Pow2(k), n) == b * Pow2(k + n)
    decreases n
  {
    hide Pow2;
    PowFits(k);
    if n > 0 {
      PowFits(k + 1);
      LslBit(b, n - 1, k + 1);
      assert b * Pow2(k + 1) == Add(b * Pow2(k), b * Pow2(k));
      assert Lsl(b * Pow2(k), n) == Lsl(Add(b * Pow2(k), b * Pow2(k)), n - 1);
    }
  }

  lemma PowFits(k: nat)
    requires k <= 31
    ensures Pow2(k) <= TOP && Pow2(k + 1) == 2 * Pow2(k)
  {
    PowMono(k, 31);
    PowersOfInterest();
  }

  /** `h` moved up `n` places. */
  function Shl(h: nat, n: nat): nat { if n == 0 then h else 2 * Shl(h, n - 1) }

  lemma {:induction false} ShlTimes(h: nat, n: nat)
    ensures Shl(h, n) == h * Pow2(n)
  {
    if n != 0 {
      ShlTimes(h, n - 1);
      assert h * (2 * Pow2(n - 1)) == 2 * (h * Pow2(n - 1));
    }
  }

  /** Masking commutes with moving both operands up ... */
  lemma {:induction false} AndShl(h: nat, m: nat, n: nat)
    ensures And(Shl(h, n), Shl(m, n)) == Shl(And(h, m), n)
  {
    if n != 0 { AndShl(h, m, n - 1); AndDouble(Shl(h, n - 1), Shl(m, n - 1)); }
  }

  lemma AndDouble(x: nat, y: nat)
    ensures And(2 * x, 2 * y) == 2 * And(x, y)
  {
    assert (2 * x) / 2 == x && (2 * y) / 2 == y && (2 * x) % 2 == 0;
  }

  /** ... and fields that do not overlap are merged by addition. */
  lemma {:induction false} OrDisjoint(lo: nat, hi: nat, n: nat)
    requires lo < Pow2(n)
    ensures Or(lo, Shl(hi, n)) == lo + Shl(hi, n)
  {
    if n != 0 && lo != 0 && Shl(hi, n) != 0 {
      OrDisjoint(lo / 2, hi, n - 1);
      assert Shl(hi, n) / 2 == Shl(hi, n - 1);
    }
  }

  lemma {:induction false} OrSelf(a: nat)
    ensures Or(a, a) == a
  {
    if a != 0 { OrSelf(a / 2); }
  }

  /** A rotation by zero is the identity, where C's obvious spelling would shift by 32. */
  lemma RorZero(a: Word)
    ensures Ror(a, 0) == a
  {
    OrSelf(a);
  }

  // ---- a mask and its complement ----

  /** A mask and its complement share a number out between them. */
  lemma {:induction false} AndComplement(x: nat, m: nat, n: nat)
    requires x < Pow2(n) && m < Pow2(n)
    ensures And(x, m) + And(x, Pow2(n) - 1 - m) == x
  {
    hide And;
    if n == 0 {
      AndZero(0);
    } else {
      var p := Pow2(n - 1);
      AndComplement(x / 2, m / 2, n - 1);
      Complement(m, p);
      AndHalves(x, m); AndHalves(x, 2 * p - 1 - m);
    }
  }

  lemma Complement(m: nat, p: nat)
    requires m < 2 * p
    ensures (2 * p - 1 - m) / 2 == p - 1 - m / 2 && (2 * p - 1 - m) % 2 == 1 - m % 2
  {
  }

  /** Bits taken from `y` under a mask and from `x` under its complement never meet. */
  lemma {:induction false} OrMasked(y: nat, x: nat, m: nat, n: nat)
    requires x < Pow2(n) && y < Pow2(n) && m < Pow2(n)
    ensures Or(And(y, m), And(x, Pow2(n) - 1 - m)) == And(y, m) + And(x, Pow2(n) - 1 - m)
  {
    hide And; hide Or;
    if n == 0 {
      AndZero(0); OrHalves(0, 0);
    } else {
      var p := Pow2(n - 1);
      OrMasked(y / 2, x / 2, m / 2, n - 1);
      Complement(m, p);
      assert (2 * p - 1 - m) / 2 == p - 1 - m / 2 && !(m % 2 == 1 && (2 * p - 1 - m) % 2 == 1);
      OrMaskedStep(y, x, m, 2 * p - 1 - m);
    }
  }

  lemma {:induction false} OrMaskedStep(y: nat, x: nat, m: nat, k: nat)
    requires !(m % 2 == 1 && k % 2 == 1)
    requires Or(And(y / 2, m / 2), And(x / 2, k / 2)) == And(y / 2, m / 2) + And(x / 2, k / 2)
    ensures Or(And(y, m), And(x, k)) == And(y, m) + And(x, k)
  {
    hide And; hide Or;
    AndBits(y, m);
    AndBits(x, k);
    OrSum(And(y, m), And(x, k));
  }

  lemma {:induction false} AndBits(a: nat, b: nat)
    ensures And(a, b) / 2 == And(a / 2, b / 2) && (And(a, b) % 2 == 1 <==> a % 2 == 1 && b % 2 == 1)
  {
    hide And;
    AndHalves(a, b);
  }

  lemma {:induction false} OrSum(a: nat, b: nat)
    requires !(a % 2 == 1 && b % 2 == 1) && Or(a / 2, b / 2) == a / 2 + b / 2
    ensures Or(a, b) == a + b
  {
    hide Or;
    OrHalves(a, b);
  }

  lemma {:induction false} AndHalves(a: nat, b: nat)
    ensures And(a, b) == (if a % 2 == 1 && b % 2 == 1 then 1 else 0) + 2 * And(a / 2, b / 2)
  {
  }

  lemma {:induction false} OrHalves(a: nat, b: nat)
    ensures Or(a, b) == (if a % 2 == 1 || b % 2 == 1 then 1 else 0) + 2 * Or(a / 2, b / 2)
  {
  }

  lemma {:induction false} AndEven(n: nat, m: nat)
    ensures And(n, 2 * m) == 2 * And(n / 2, m)
  {
    hide And;
    AndHalves(n, 2 * m);
    assert (2 * m) / 2 == m && (2 * m) % 2 == 0;
  }

  /** The PC field of a 26-bit R15, and the whole word but its bottom two bits. */
  lemma PcMasks(x: Word)
    ensures And(x, 0x03ff_fffc) == x % 0x400_0000 - x % 4
    ensures And(x, 0xffff_fffc) == x - x % 4
  {
    hide And; hide Pow2;
    AndEven(x, 0x01ff_fffe); AndEven(x / 2, 0x00ff_ffff);
    AndEven(x, 0x7fff_fffe); AndEven(x / 2, 0x3fff_ffff);
    PowersOfInterest();
    AndLow(x / 4, 24);
    AndLow(x / 4, 30);
  }

  /** Replacing the bits under a mask. */
  lemma Replace(y: Word, x: Word, m: Word)
    ensures OrW(AndW(y, m), AndW(x, Not(m))) == AndW(y, m) + x - AndW(x, m)
  {
    hide And; hide Or;
    Pow32();
    OrMasked(y, x, m, 32);
    AndComplement(x, m, 32);
  }

  /** Setting the bits of a mask adds the mask to the bits outside it. */
  lemma {:induction false} OrIsAndPlus(x: nat, m: nat, n: nat)
    requires x < Pow2(n) && m < Pow2(n)
    ensures Or(x, m) == And(x, Pow2(n) - 1 - m) + m
  {
    hide And; hide Or;
    if n == 0 {
      AndZero(0); OrHalves(0, 0);
    } else {
      var p := Pow2(n - 1);
      OrIsAndPlus(x / 2, m / 2, n - 1);
      Complement(m, p);
      AndHalves(x, 2 * p - 1 - m);
      OrHalves(x, m);
    }
  }

  // ---- single bits ----

  predicate BitAt(w: nat, i: nat) { w / Pow2(i) % 2 == 1 }

  lemma BitHalved(w: nat, i: nat)
    ensures BitAt(w, i) <==> if i == 0 then w % 2 == 1 else BitAt(w / 2, i - 1)
  {
    hide Pow2;
    PowUnfold(i);
    if i != 0 { DivDouble(w, Pow2(i - 1)); }
  }

  /** The bitwise operations work bit by bit. */
  lemma {:induction false} BitwiseBits(a: nat, b: nat, i: nat)
    ensures BitAt(And(a, b), i) <==> BitAt(a, i) && BitAt(b, i)
    ensures BitAt(Or(a, b), i) <==> BitAt(a, i) || BitAt(b, i)
    ensures BitAt(Xor(a, b), i) <==> BitAt(a, i) != BitAt(b, i)
    decreases i
  {
    hide And; hide Or; hide Xor; hide BitAt;
    BitHalved(a, i); BitHalved(b, i); BitHalved(And(a, b), i); BitHalved(Or(a, b), i); BitHalved(Xor(a, b), i);
    if i == 0 { LowBits(a, b); } else { Halves(a, b); BitwiseBits(a / 2, b / 2, i - 1); }
  }

  lemma {:induction false} LowBits(a: nat, b: nat)
    ensures And(a, b) % 2 == 1 <==> a % 2 == 1 && b % 2 == 1
    ensures Or(a, b) % 2 == 1 <==> a % 2 == 1 || b % 2 == 1
    ensures Xor(a, b) % 2 == 1 <==> (a % 2 == 1) != (b % 2 == 1)
  {
    hide And; hide Or; hide Xor;
    AndHalves(a, b); OrHalves(a, b); XorHalves(a, b);
  }

  /** The complement has every bit turned over. */
  lemma NotBits(a: Word, i: nat)
    requires i < 32
    ensures BitAt(Not(a), i) <==> !BitAt(a, i)
  {
    hide BitAt;
    Pow32();
    ComplementBits(a, 32, i);
  }

  lemma {:induction false} ComplementBits(a: nat, n: nat, i: nat)
    requires i < n && a < Pow2(n)
    ensures BitAt(Pow2(n) - 1 - a, i) <==> !BitAt(a, i)
    decreases i
  {
    hide BitAt; hide Pow2;
    PowUnfold(n);
    var p := Pow2(n - 1);
    Complement(a, p);
    BitHalved(a, i);
    BitHalved(Pow2(n) - 1 - a, i);
    if i > 0 { ComplementBits(a / 2, n - 1, i - 1); }
  }
}
