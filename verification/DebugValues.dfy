/**
 What the debugger's operators and names stand for (debugexpr.c): the values of whole texts, told by the characters of
 the operator or the name alone.
 */
module DebugValues {
  import opened Words
  import opened DebugExpr
  import Shifter

  // ---- operators by their text ----

  /** How tightly an operator binds, the loosest first. */
  function Rank(t: Text): int {
    if t == "||" then 0 else if t == "&&" then 1 else if t == "|" then 2 else if t == "^" then 3 else if t == "&" then 4
    else if t == "==" || t == "!=" then 5
    else if t == "<" || t == "<=" || t == ">" || t == ">=" then 6
    else if t == "<<" || t == ">>" then 7
    else if t == "+" || t == "-" then 8
    else if t == "*" || t == "/" || t == "%" then 9
    else -1
  }

  /** Every operator has its rank, and there is no other. */
  lemma RankIs(level: int, k: int)
    requires 0 <= level < BINARY && 0 <= k < |Tokens(level)|
    ensures Rank(Tokens(level)[k].text) == level
  {
  }

  lemma RanksFilled(t: Text)
    requires Rank(t) >= 0
    ensures exists k :: 0 <= k < |Tokens(Rank(t))| && Tokens(Rank(t))[k].text == t
  {
    var ts := Tokens(Rank(t));
    if t == "!=" || t == ">=" || t == ">>" || t == "-" || t == "/" { assert ts[1].text == t; }
    else if t == "<" || t == "%" { assert ts[2].text == t; }
    else if t == ">" { assert ts[3].text == t; }
    else { assert ts[0].text == t; }
  }

  function Truth(b: bool): Word { if b then 1 else 0 }

  /** Arithmetic modulo 2^32. */
  predicate Sums(t: Text, a: Word, b: Word, v: Value) {
    && (t == "+" ==> v == Val((a + b) % MOD))
    && (t == "-" ==> v == Val((a - b) % MOD))
    && (t == "*" ==> v == Val(a * b % MOD))
  }

  /** Quotient and remainder. */
  predicate Divides(t: Text, a: Word, b: Word, v: Value) {
    t == "/" || t == "%" ==>
      if b == 0 then v == Bad(DivisionByZero)
      else v.Val? && if t == "/" then 0 <= a - v.v * b < b else v.v < b && (a - v.v) % b == 0
  }

  /** Shifts, by any number of places. */
  predicate Shifts(t: Text, a: Word, b: Word, v: Value) {
    && (t == "<<" ==> v.Val? && v.v == a * Pow2(b) % MOD)
    && (t == ">>" ==> v.Val? && v.v == a / Pow2(b))
  }

  /** Bit by bit. */
  predicate Bits(t: Text, a: Word, b: Word, v: Value) {
    t == "&" || t == "|" || t == "^" ==>
      v.Val? && forall i :: 0 <= i < 32 ==>
        (BitAt(v.v, i) <==> if t == "&" then BitAt(a, i) && BitAt(b, i) else if t == "|" then BitAt(a, i) || BitAt(b, i) else BitAt(a, i) != BitAt(b, i))
  }

  /** Comparisons of unsigned numbers, and truth values. */
  predicate Decides(t: Text, a: Word, b: Word, v: Value) {
    && (t == "==" ==> v == Val(Truth(a == b))) && (t == "!=" ==> v == Val(Truth(a != b)))
    && (t == "<" ==> v == Val(Truth(a < b))) && (t == "<=" ==> v == Val(Truth(a <= b)))
    && (t == ">" ==> v == Val(Truth(a > b))) && (t == ">=" ==> v == Val(Truth(a >= b)))
    && (t == "&&" ==> v == Val(Truth(a != 0 && b != 0))) && (t == "||" ==> v == Val(Truth(a != 0 || b != 0)))
  }

  /** What the operator with this text makes of two operands. */
  predicate Computes(t: Text, a: Word, b: Word, v: Value) {
    Sums(t, a, b, v) && Divides(t, a, b, v) && Shifts(t, a, b, v) && Bits(t, a, b, v) && Decides(t, a, b, v)
  }

  lemma OperatorComputes(level: int, k: int, a: Word, b: Word)
    requires 0 <= level < BINARY && 0 <= k < |Tokens(level)|
    ensures Computes(Tokens(level)[k].text, a, b, Operate(level, k, a, b))
  {
    hide Computes; hide AndW; hide OrW; hide XorW; hide Lsl; hide Lsr; hide Mul; hide Add; hide Sub;
    Truths(a, b);
    Equalities(a, b);
    Below(a, b);
    Above(a, b);
    BitTexts(a, b);
    ShiftTexts(a, b);
    SumTexts(a, b);
    ProductTexts(a, b);
  }

  lemma Truths(a: Word, b: Word)
    ensures Computes("||", a, b, Val(Truth(a != 0 || b != 0))) && Computes("&&", a, b, Val(Truth(a != 0 && b != 0)))
  {
    hide Pow2; hide BitAt;
  }

  lemma Equalities(a: Word, b: Word)
    ensures Computes("==", a, b, Val(Truth(a == b))) && Computes("!=", a, b, Val(Truth(a != b)))
  {
    hide Pow2; hide BitAt;
  }

  lemma Below(a: Word, b: Word)
    ensures Computes("<", a, b, Val(Truth(a < b))) && Computes("<=", a, b, Val(Truth(a <= b)))
  {
    hide Pow2; hide BitAt;
  }

  lemma Above(a: Word, b: Word)
    ensures Computes(">", a, b, Val(Truth(a > b))) && Computes(">=", a, b, Val(Truth(a >= b)))
  {
    hide Pow2; hide BitAt;
  }

  lemma BitTexts(a: Word, b: Word)
    ensures Computes("&", a, b, Val(AndW(a, b))) && Computes("|", a, b, Val(OrW(a, b))) && Computes("^", a, b, Val(XorW(a, b)))
  {
    hide Pow2; hide BitAt; hide And; hide Or; hide Xor; hide AndW; hide OrW; hide XorW;
    BitsComputed(a, b);
  }

  lemma ShiftTexts(a: Word, b: Word)
    ensures Computes("<<", a, b, Val(if b >= 32 then 0 else Lsl(a, b))) && Computes(">>", a, b, Val(if b >= 32 then 0 else Lsr(a, b)))
  {
    hide Pow2; hide BitAt; hide Lsl; hide Lsr;
    ShiftsComputed(a, b);
  }

  lemma SumTexts(a: Word, b: Word)
    ensures Computes("+", a, b, Val(Add(a, b))) && Computes("-", a, b, Val(Sub(a, b)))
  {
    hide Pow2; hide BitAt; hide Add; hide Sub;
    SumsComputed(a, b);
  }

  lemma ProductTexts(a: Word, b: Word)
    ensures Computes("*", a, b, Val(Mul(a, b)))
    ensures b == 0 ==> Computes("/", a, b, Bad(DivisionByZero)) && Computes("%", a, b, Bad(DivisionByZero))
    ensures b != 0 ==> Computes("/", a, b, Val(a / b)) && Computes("%", a, b, Val(a % b))
  {
    hide Pow2; hide BitAt; hide Mul;
    ProductsComputed(a, b);
  }

  lemma BitsComputed(a: Word, b: Word)
    ensures forall i: nat :: BitAt(AndW(a, b), i) <==> BitAt(a, i) && BitAt(b, i)
    ensures forall i: nat :: BitAt(OrW(a, b), i) <==> BitAt(a, i) || BitAt(b, i)
    ensures forall i: nat :: BitAt(XorW(a, b), i) <==> BitAt(a, i) != BitAt(b, i)
  {
    hide BitAt; hide And; hide Or; hide Xor;
    forall i: nat
      ensures BitAt(AndW(a, b), i) <==> BitAt(a, i) && BitAt(b, i)
      ensures BitAt(OrW(a, b), i) <==> BitAt(a, i) || BitAt(b, i)
      ensures BitAt(XorW(a, b), i) <==> BitAt(a, i) != BitAt(b, i)
    {
      BitwiseBits(a, b, i);
    }
  }

  lemma ShiftsComputed(a: Word, b: Word)
    ensures b < 32 ==> Lsl(a, b) == a * Pow2(b) % MOD && Lsr(a, b) == a / Pow2(b)
    ensures b >= 32 ==> a * Pow2(b) % MOD == 0 && a / Pow2(b) == 0
  {
    hide Pow2; hide Lsl; hide Lsr;
    LslTimes(a, b);
    LsrDivides(a, b);
    if b >= 32 { Shifter.AllGone(a, b); }
  }

  lemma SumsComputed(a: Word, b: Word)
    ensures Add(a, b) == (a + b) % MOD && Sub(a, b) == (a - b) % MOD
  {
    RemainderUnique(a + b, MOD, if a + b < MOD then 0 else 1, Add(a, b));
    RemainderUnique(a - b, MOD, if a < b then -1 else 0, Sub(a, b));
  }

  lemma ProductsComputed(a: Word, b: Word)
    ensures Mul(a, b) == a * b % MOD
    ensures b != 0 ==> 0 <= a - a / b * b < b && a % b < b && (a - a % b) % b == 0
  {
    if b != 0 {
      var q, t := a / b, a % b;
      assert a == b * q + t && b * q == q * b;
      RemainderUnique(a - t, b, q, 0);
    }
  }

  /** The text of two operands with an operator between them has the value that the operator's characters say. */
  lemma BinaryText(level: int, k: int, l: Expr, r: Expr, env: Env)
    requires Formed(Bin(level, k, l, r)) && 1 + Nesting(Bin(level, k, l, r), 0) <= LIMIT
    ensures var t := Tokens(level)[k].text;
            var v := Evaluate(Print(l, level) + " " + t + " " + Print(r, level + 1), env);
            var x, y := Eval(l, env), Eval(r, env);
            if x.Bad? then v == x else if y.Bad? then v == y else Computes(t, x.v, y.v, v)
  {
    hide Evaluate; hide Computes; hide Operate; hide Nesting; hide Eval; hide Print; hide Tokens;
    var e := Bin(level, k, l, r);
    Evaluates(e, env);
    InRange(level, k, l, r);
    Bare(level, k, l, r, 0);
    EvalBinary(level, k, l, r, env);
    if Eval(l, env).Val? && Eval(r, env).Val? { OperatorComputes(level, k, Eval(l, env).v, Eval(r, env).v); }
  }

  /** An operator needs no parentheses where it binds tightly enough. */
  lemma Bare(level: int, k: int, l: Expr, r: Expr, outer: int)
    requires Formed(Bin(level, k, l, r)) && outer <= level
    ensures Print(Bin(level, k, l, r), outer) == Print(l, level) + " " + Tokens(level)[k].text + " " + Print(r, level + 1)
  {
    hide Tokens;
  }

  lemma EvalBinary(level: int, k: int, l: Expr, r: Expr, env: Env)
    requires Formed(Bin(level, k, l, r))
    ensures var x, y := Eval(l, env), Eval(r, env);
            Eval(Bin(level, k, l, r), env) == if x.Bad? then x else if y.Bad? then y else Operate(level, k, x.v, y.v)
  {
    hide Tokens; hide Operate;
  }

  lemma InRange(level: int, k: int, l: Expr, r: Expr)
    requires Formed(Bin(level, k, l, r))
    ensures 0 <= level < BINARY && 0 <= k < |Tokens(level)|
  {
    hide Tokens;
  }

  /** The value of three operands with two operators, the one that is done first giving `w`. */
  predicate Grouped(first: Text, a: Word, b: Word, w: Value, v: Value) { Computes(first, a, b, w) && (w.Bad? ==> v == w) }

  /** Of two operators the one that binds more tightly is done first, without parentheses. */
  lemma TighterFirst(l1: int, k1: int, l2: int, k2: int, x: Expr, y: Expr, z: Expr, env: Env) returns (w: Value)
    requires 0 <= l1 < l2 < BINARY && 0 <= k1 < |Tokens(l1)| && 0 <= k2 < |Tokens(l2)| && Formed(x) && Formed(y) && Formed(z)
    requires 1 + Nesting(Bin(l1, k1, x, Bin(l2, k2, y, z)), 0) <= LIMIT
    requires Eval(x, env).Val? && Eval(y, env).Val? && Eval(z, env).Val?
    ensures var s, t := Tokens(l1)[k1].text, Tokens(l2)[k2].text;
            var v := Evaluate(Print(x, l1) + " " + s + " " + (Print(y, l2) + " " + t + " " + Print(z, l2 + 1)), env);
            && Rank(s) < Rank(t) && Grouped(t, Eval(y, env).v, Eval(z, env).v, w, v)
            && (w.Val? ==> Computes(s, Eval(x, env).v, w.v, v))
  {
    hide Evaluate; hide Computes; hide Operate; hide Nesting; hide Eval; hide Print; hide Tokens; hide Rank;
    var e := Bin(l2, k2, y, z);
    FormedBinary(l1, k1, l2, k2, x, y, z);
    RankIs(l1, k1);
    RankIs(l2, k2);
    BinaryText(l1, k1, x, e, env);
    Bare(l2, k2, y, z, l1 + 1);
    OperatorComputes(l2, k2, Eval(y, env).v, Eval(z, env).v);
    EvalBinary(l2, k2, y, z, env);
    w := Eval(e, env);
  }

  lemma FormedBinary(l1: int, k1: int, l2: int, k2: int, x: Expr, y: Expr, z: Expr)
    requires 0 <= l1 < BINARY && 0 <= l2 < BINARY && 0 <= k1 < |Tokens(l1)| && 0 <= k2 < |Tokens(l2)| && Formed(x) && Formed(y) && Formed(z)
    ensures Formed(Bin(l2, k2, y, z)) && Formed(Bin(l1, k1, x, Bin(l2, k2, y, z))) && Formed(Bin(l2, k2, Bin(l1, k1, x, y), z))
  {
    hide Tokens;
  }

  /** Of two that bind alike the left one is done first. */
  lemma LeftFirst(level: int, k1: int, k2: int, x: Expr, y: Expr, z: Expr, env: Env) returns (w: Value)
    requires 0 <= level < BINARY && 0 <= k1 < |Tokens(level)| && 0 <= k2 < |Tokens(level)| && Formed(x) && Formed(y) && Formed(z)
    requires 1 + Nesting(Bin(level, k2, Bin(level, k1, x, y), z), 0) <= LIMIT
    requires Eval(x, env).Val? && Eval(y, env).Val? && Eval(z, env).Val?
    ensures var s, t := Tokens(level)[k1].text, Tokens(level)[k2].text;
            var v := Evaluate(Print(x, level) + " " + s + " " + Print(y, level + 1) + " " + t + " " + Print(z, level + 1), env);
            && Rank(s) == Rank(t) && Grouped(s, Eval(x, env).v, Eval(y, env).v, w, v)
            && (w.Val? ==> Computes(t, w.v, Eval(z, env).v, v))
  {
    hide Evaluate; hide Computes; hide Operate; hide Nesting; hide Eval; hide Print; hide Tokens; hide Rank;
    var e := Bin(level, k1, x, y);
    FormedBinary(level, k1, level, k2, x, y, z);
    FormedBinary(level, k1, level, k1, x, x, y);
    RankIs(level, k1);
    RankIs(level, k2);
    BinaryText(level, k2, e, z, env);
    Bare(level, k1, x, y, level);
    OperatorComputes(level, k1, Eval(x, env).v, Eval(y, env).v);
    EvalBinary(level, k1, x, y, env);
    w := Eval(e, env);
  }

  // ---- unary operators ----

  predicate UnaryComputes(t: Text, a: Word, v: Word) {
    && (t == "!" ==> v == Truth(a == 0))
    && (t == "~" ==> forall i :: 0 <= i < 32 ==> (BitAt(v, i) <==> !BitAt(a, i)))
    && (t == "-" ==> v == (0 - a) % MOD)
    && t in ["!", "~", "-"]
  }

  lemma UnaryText(op: int, x: Expr, env: Env)
    requires Formed(Un(op, x)) && 1 + Nesting(Un(op, x), 0) <= LIMIT
    ensures var t, v, a := UnaryToken(op).text, Evaluate(UnaryToken(op).text + Print(x, BINARY), env), Eval(x, env);
            if a.Bad? then v == a else v.Val? && UnaryComputes(t, a.v, v.v)
  {
    hide Evaluate; hide UnaryComputes; hide Nesting; hide NameValue; hide Unary; hide Operate;
    Evaluates(Un(op, x), env);
    assert Print(Un(op, x), 0) == UnaryToken(op).text + Print(x, BINARY);
    if Eval(x, env).Val? { UnaryIs(op, Eval(x, env).v); }
  }

  lemma UnaryIs(op: int, a: Word)
    requires 0 <= op < 3
    ensures UnaryComputes(UnaryToken(op).text, a, Unary(op, a))
  {
    hide BitAt;
    forall i | 0 <= i < 32 ensures BitAt(Not(a), i) <==> !BitAt(a, i) { NotBits(a, i); }
    var x: int := a;
    RemainderUnique(0 - x, MOD, if a == 0 then 0 else -1, Sub(0, a));
  }

  // ---- names ----

  /** The register a name stands for, by its spelling. */
  predicate NamesRegister(name: Text, i: int) {
    || (0 <= i < 10 && name == ['r', '0' + i as char])
    || (10 <= i < 16 && name == ['r', '1', '0' + (i - 10) as char])
    || (name == "sp" && i == 13) || (name == "lr" && i == 14) || (name == "pc" && i == 15)
  }

  /** The texts of registers, of the status register and of its flags. */
  lemma NameTexts(name: Text, i: int, env: Env)
    ensures NamesRegister(name, i) ==> Evaluate(name, env) == Val(env.reg(i))
    ensures Evaluate("cpsr", env) == Val(env.cpsr)
    ensures Evaluate("n", env) == Val(Truth(BitAt(env.cpsr, 31))) && Evaluate("z", env) == Val(Truth(BitAt(env.cpsr, 30)))
    ensures Evaluate("c", env) == Val(Truth(BitAt(env.cpsr, 29))) && Evaluate("v", env) == Val(Truth(BitAt(env.cpsr, 28)))
  {
    hide Evaluate; hide BitAt;
    if NamesRegister(name, i) { RegisterText(name, i, env); }
    FlagText('n', 31, env);
    FlagText('z', 30, env);
    FlagText('c', 29, env);
    FlagText('v', 28, env);
    NameReads1(Cpsr, env);
  }

  lemma NameReads1(n: Name, env: Env)
    requires NameOk(n)
    ensures Evaluate(NameText(n), env) == NameValue(NameText(n), env)
  {
    hide Evaluate; hide NameValue; hide NameText;
    Evaluates(Named(n), env);
  }

  lemma RegisterText(name: Text, i: int, env: Env)
    requires NamesRegister(name, i)
    ensures Evaluate(name, env) == Val(env.reg(i))
  {
    hide Evaluate;
    var n := if name == "sp" then Sp else if name == "lr" then Lr else if name == "pc" then Pc else R(i);
    NameReads1(n, env);
    DigitIs(i);
  }

  lemma DigitIs(i: int)
    requires 0 <= i < 16
    ensures i < 10 ==> DigitChar(i) == '0' + i as char
    ensures i >= 10 ==> DigitChar(i - 10) == '0' + (i - 10) as char
  {
  }

  lemma FlagText(f: char, bit: nat, env: Env)
    requires (f, bit) in [('n', 31), ('z', 30), ('c', 29), ('v', 28)]
    ensures Evaluate([f], env) == Val(Truth(BitAt(env.cpsr, bit)))
  {
    hide Evaluate; hide Pow2; hide Lsr;
    NameReads1(Flag(f), env);
    LsrDivides(env.cpsr, bit);
  }
}
