/**
 The debugger's expressions (debugexpr.c): a recursive-descent parser that evaluates as it goes,
 against the value of the expression tree whose text it is given.
 */
module DebugExpr {
  import opened Words

  const LIMIT: int := 32

  type Text = seq<char>

  datatype Error =
    | ExpectedNumber | ExpectedValue | UnknownName | NoRegister | ExpectedBracket | BadSize
    | NotReadable | EndsEarly | ExpectedParen | TooDeep | DivisionByZero | TrailingText

  datatype Read = Unreadable | Bytes(v: Word)

  /** Registers, status register and memory of the stopped machine. */
  datatype Env = Env(reg: int -> Word, cpsr: Word, mem: (Word, int) -> Read)

  /** A value and the text left, or the first error. */
  datatype Res = Ok(v: Word, rest: Text) | Err(e: Error)

  // ---- scanning ----

  function Skip(s: Text): (r: Text)
    ensures |r| <= |s|
    decreases |s|
  {
    if s != [] && (s[0] == ' ' || s[0] == '\t') then Skip(s[1..]) else s
  }

  predicate IsDigit(c: char) { '0' <= c <= '9' }

  predicate IsIdent(c: char) { 'a' <= c <= 'z' || 'A' <= c <= 'Z' || IsDigit(c) || c == '_' }

  function Lower(c: char): char { if 'A' <= c <= 'Z' then c - 'A' + 'a' else c }

  /** An operator, and the characters it must not be followed by. */
  datatype Token = Token(text: Text, nots: Text)

  /** accept() and accept_exact(). */
  predicate Matches(s: Text, t: Token) {
    var p := Skip(s);
    t.text <= p && !(|p| > |t.text| && p[|t.text|] in t.nots)
  }

  function After(s: Text, t: Token): Text
    requires Matches(s, t)
  {
    Skip(s)[|t.text|..]
  }

  /** The binary operators, from loosest to tightest, each level in the order tried. */
  function Tokens(level: int): seq<Token> {
    if level == 0 then [Token("||", "")] else if level == 1 then [Token("&&", "")]
    else if level == 2 then [Token("|", "|")] else if level == 3 then [Token("^", "")]
    else if level == 4 then [Token("&", "&")] else if level == 5 then [Token("==", ""), Token("!=", "")]
    else if level == 6 then [Token("<=", ""), Token(">=", ""), Token("<", "<="), Token(">", ">=")]
    else if level == 7 then [Token("<<", ""), Token(">>", "")]
    else if level == 8 then [Token("+", ""), Token("-", "")] else [Token("*", ""), Token("/", ""), Token("%", "")]
  }

  const BINARY: int := 10

  /** The first token from `i` on that the text begins with, or -1. */
  function FirstMatch(ts: seq<Token>, s: Text, i: nat): (k: int)
    requires i <= |ts|
    ensures k == -1 || (i <= k < |ts| && Matches(s, ts[k]))
    decreases |ts| - i
  {
    if i == |ts| then -1 else if Matches(s, ts[i]) then i else FirstMatch(ts, s, i + 1)
  }

  function NextOp(level: int, s: Text): (k: int)
    ensures k == -1 || (0 <= k < |Tokens(level)| && Matches(s, Tokens(level)[k]))
  {
    FirstMatch(Tokens(level), s, 0)
  }

  /** accept() skips blanks even when it fails; accept_exact() does not. */
  function Settle(level: int, s: Text): (r: Text)
    ensures |r| <= |s|
  {
    if level == 2 || level == 4 then s else Skip(s)
  }

  function Bool(b: bool): Word { if b then 1 else 0 }

  datatype Value = Val(v: Word) | Bad(e: Error)

  /** Operator `k` of a level. */
  function Operate(level: int, k: int, a: Word, b: Word): Value {
    if level == 0 then Val(Bool(a != 0 || b != 0)) else if level == 1 then Val(Bool(a != 0 && b != 0))
    else if level == 2 then Val(OrW(a, b)) else if level == 3 then Val(XorW(a, b)) else if level == 4 then Val(AndW(a, b))
    else if level == 5 then Val(Bool(if k == 0 then a == b else a != b))
    else if level == 6 then Val(Bool(if k == 0 then a <= b else if k == 1 then a >= b else if k == 2 then a < b else a > b))
    else if level == 7 then (if b >= 32 then Val(0) else if k == 0 then Val(Lsl(a, b)) else Val(Lsr(a, b)))
    else if level == 8 then (if k == 0 then Val(Add(a, b)) else Val(Sub(a, b)))
    else if k == 0 then Val(Mul(a, b))
    else if b == 0 then Bad(DivisionByZero)
    else if k == 1 then Val(a / b) else Val(a % b)
  }

  // ---- numbers and names ----

  /** The value of a digit in a base, or -1. */
  function DigitValue(c: char, base: int): int {
    var l := Lower(c);
    if IsDigit(l) then l as int - '0' as int
    else if base == 16 && 'a' <= l <= 'f' then l as int - 'a' as int + 10
    else -1
  }

  /** The value and the text after a run of digits. */
  function Scan(s: Text, base: int, v: Word): (Word, Text)
    requires base == 10 || base == 16
    decreases |s|
  {
    if s == [] || DigitValue(s[0], base) < 0 then (v, s)
    else Scan(s[1..], base, (v * base + DigitValue(s[0], base)) % MOD)
  }

  /** Base and digits of a number: & and 0x mean hexadecimal. */
  function NumberStart(s: Text): (int, Text) {
    if |s| > 0 && s[0] == '&' then (16, s[1..])
    else if |s| > 1 && s[0] == '0' && Lower(s[1]) == 'x' then (16, s[2..])
    else (10, s)
  }

  function ParseNumber(s: Text): (r: Res)
    ensures r.Ok? ==> |r.rest| <= |s|
  {
    var (base, t) := NumberStart(s);
    var (v, rest) := Scan(t, base, 0);
    ScanShrinks(t, base, 0);
    if rest == t then Err(ExpectedNumber) else Ok(v, rest)
  }

  lemma {:induction false} ScanShrinks(s: Text, base: int, v: Word)
    requires base == 10 || base == 16
    ensures |Scan(s, base, v).1| <= |s|
    decreases |s|
  {
    if s != [] && DigitValue(s[0], base) >= 0 { ScanShrinks(s[1..], base, (v * base + DigitValue(s[0], base)) % MOD); }
  }

  /** How many characters of a name come first. */
  function NameLength(s: Text): (n: nat)
    ensures n <= |s|
    decreases |s|
  {
    if s == [] || !IsIdent(s[0]) then 0 else 1 + NameLength(s[1..])
  }

  function Lowered(s: Text): Text { seq(|s|, i requires 0 <= i < |s| => Lower(s[i])) }

  /** The registers' names; -1 for another name, -2 for a number that is no register. */
  function RegisterOf(name: Text): int {
    if name == "pc" then 15 else if name == "sp" then 13 else if name == "lr" then 14
    else if 2 <= |name| <= 3 && name[0] == 'r' then
      if exists i :: 1 <= i < |name| && !IsDigit(name[i]) then -1
      else
        var n := if |name| == 2 then name[1] as int - '0' as int
                 else (name[1] as int - '0' as int) * 10 + (name[2] as int - '0' as int);
        if n > 15 then -2 else n
    else -1
  }

  function FlagBit(c: char): nat { if c == 'n' then 31 else if c == 'z' then 30 else if c == 'c' then 29 else 28 }

  function NameValue(name: Text, env: Env): Value {
    var reg := RegisterOf(name);
    if reg >= 0 then Val(env.reg(reg))
    else if reg == -2 then Bad(NoRegister)
    else if name == "cpsr" then Val(env.cpsr)
    else if |name| == 1 && name[0] in "nzcv" then Val(Lsr(env.cpsr, FlagBit(name[0])) % 2)
    else Bad(UnknownName)
  }

  function ParseName(s: Text, env: Env): (r: Res)
    ensures r.Ok? ==> |r.rest| <= |s|
  {
    var n := NameLength(s);
    if n == 0 then Err(ExpectedValue)
    else if n > 7 then Err(UnknownName)
    else
      match NameValue(Lowered(s[..n]), env)
      case Val(v) => Ok(v, s[n..])
      case Bad(e) => Err(e)
  }

  // ---- the parser ----

  function ParseExpr(s: Text, d: int, env: Env): (r: Res)
    ensures r.Ok? ==> |r.rest| <= |s|
    decreases |s|, 40
  {
    if d + 1 > LIMIT then Err(TooDeep) else ParseLevel(0, s, d + 1, env)
  }

  /** The parsers of the ten binary levels, and of unary operators at level 10. */
  function ParseLevel(level: nat, s: Text, d: int, env: Env): (r: Res)
    requires level <= BINARY
    ensures r.Ok? ==> |r.rest| <= |s|
    decreases |s|, 30 - level
  {
    if level == BINARY then ParseUnary(s, d, env)
    else
      match ParseLevel(level + 1, s, d, env)
      case Err(e) => Err(e)
      case Ok(v, rest) => Loop(level, v, rest, d, env)
  }

  /** The loop of a binary level: the operators that follow a first operand. */
  function Loop(level: nat, v: Word, s: Text, d: int, env: Env): (r: Res)
    requires level < BINARY
    ensures r.Ok? ==> |r.rest| <= |s|
    decreases |s|, 30 - level - 1
  {
    var k := NextOp(level, s);
    if k < 0 then Ok(v, Settle(level, s))
    else
      AfterShrinks(s, level, k);
      match ParseLevel(level + 1, After(s, Tokens(level)[k]), d, env)
      case Err(e) => Err(e)
      case Ok(w, rest) =>
        match Operate(level, k, v, w)
        case Bad(e) => Err(e)
        case Val(x) => Loop(level, x, rest, d, env)
  }

  lemma AfterShrinks(s: Text, level: int, k: int)
    requires 0 <= k < |Tokens(level)| && Matches(s, Tokens(level)[k])
    ensures |After(s, Tokens(level)[k])| < |s|
  {
  }

  const NOT := Token("!", "=")
  const COMPLEMENT := Token("~", "")
  const MINUS := Token("-", "")

  function ParseUnary(s: Text, d: int, env: Env): (r: Res)
    ensures r.Ok? ==> |r.rest| <= |s|
    decreases |s|, 10
  {
    if d + 1 > LIMIT then Err(TooDeep)
    else if Matches(s, NOT) then
      match ParseUnary(After(s, NOT), d + 1, env)
      case Err(e) => Err(e)
      case Ok(v, rest) => Ok(Bool(v == 0), rest)
    else if Matches(s, COMPLEMENT) then
      match ParseUnary(After(s, COMPLEMENT), d + 1, env)
      case Err(e) => Err(e)
      case Ok(v, rest) => Ok(Not(v), rest)
    else if Matches(s, MINUS) then
      match ParseUnary(After(s, MINUS), d + 1, env)
      case Err(e) => Err(e)
      case Ok(v, rest) => Ok(Sub(0, v), rest)
    else ParsePrimary(Skip(s), d + 1, env)
  }

  const CLOSE := Token(")", "")
  const UNBRACKET := Token("]", "")
  const COLON := Token(":", "")

  function ParsePrimary(s: Text, d: int, env: Env): (r: Res)
    ensures r.Ok? ==> |r.rest| <= |s|
    decreases |s|, 9
  {
    var t := Skip(s);
    if t == [] then Err(EndsEarly)
    else if t[0] == '(' then
      match ParseExpr(t[1..], d, env)
      case Err(e) => Err(e)
      case Ok(v, rest) => if Matches(rest, CLOSE) then Ok(v, After(rest, CLOSE)) else Err(ExpectedParen)
    else if t[0] == '[' then
      match ParseExpr(t[1..], d, env)
      case Err(e) => Err(e)
      case Ok(a, rest) => if Matches(rest, UNBRACKET) then Memory(a, After(rest, UNBRACKET), env) else Err(ExpectedBracket)
    else if IsDigit(t[0]) || t[0] == '&' then ParseNumber(t)
    else ParseName(t, env)
  }

  /** A memory reference after its closing bracket. */
  function Memory(a: Word, s: Text, env: Env): (r: Res)
    ensures r.Ok? ==> |r.rest| <= |s|
  {
    if Matches(s, COLON) then
      match ParseNumber(Skip(After(s, COLON)))
      case Err(e) => Err(e)
      case Ok(size, rest) =>
        if size != 1 && size != 2 && size != 4 then Err(BadSize) else Fetched(env.mem(a, size), rest)
    else Fetched(env.mem(a, 4), Skip(s))
  }

  function Fetched(m: Read, rest: Text): Res { if m.Bytes? then Ok(m.v, rest) else Err(NotReadable) }

  /** run(): a whole expression. */
  function Evaluate(s: Text, env: Env): Value {
    match ParseExpr(s, 0, env)
    case Err(e) => Bad(e)
    case Ok(v, rest) => if Skip(rest) == [] then Val(v) else Bad(TrailingText)
  }

  /** A machine in which everything reads as zero. */
  function Zeros(): Env { Env(_ => 0, 0, (_, _) => Bytes(0)) }

  /** debugexpr_check() is evaluation on such a machine. */
  function Check(s: Text): Value { Evaluate(s, Zeros()) }

  // ---- expression trees ----

  datatype Base = Decimal | Hex0x | HexAmpersand

  datatype Name = R(i: int) | Pc | Sp | Lr | Cpsr | Flag(c: char)

  datatype Expr =
    | Num(n: Word, base: Base)
    | Named(name: Name)
    | Un(op: int, x: Expr)
    | Bin(level: int, k: int, l: Expr, r: Expr)
    | Mem(addr: Expr, size: int)     // 0: no size is written, a word is read

  predicate NameOk(n: Name) { (n.R? ==> 0 <= n.i <= 15) && (n.Flag? ==> n.c in "nzcv") }

  predicate Formed(e: Expr) {
    match e
    case Num(_, _) => true
    case Named(n) => NameOk(n)
    case Un(op, x) => 0 <= op < 3 && Formed(x)
    case Bin(level, k, l, r) => 0 <= level < BINARY && 0 <= k < |Tokens(level)| && Formed(l) && Formed(r)
    case Mem(a, size) => (size == 0 || size == 1 || size == 2 || size == 4) && Formed(a)
  }

  function LevelOf(e: Expr): int { if e.Bin? then e.level else BINARY }

  // ---- the text of a tree ----

  function DigitChar(v: int): char
    requires 0 <= v < 16
  {
    "0123456789abcdef"[v]
  }

  function Digits(n: nat, base: int): (t: Text)
    requires base == 10 || base == 16
    ensures |t| > 0
    decreases n
  {
    if n < base then [DigitChar(n)] else Digits(n / base, base) + [DigitChar(n % base)]
  }

  function Spelled(n: nat, base: Base): Text {
    match base
    case Decimal => Digits(n, 10)
    case Hex0x => "0x" + Digits(n, 16)
    case HexAmpersand => "&" + Digits(n, 16)
  }

  function NameText(n: Name): Text
    requires NameOk(n)
  {
    match n
    case R(i) => if i < 10 then ['r', DigitChar(i)] else ['r', '1', DigitChar(i - 10)]
    case Pc => "pc"
    case Sp => "sp"
    case Lr => "lr"
    case Cpsr => "cpsr"
    case Flag(c) => [c]
  }

  /** Parentheses where the level asks for a tighter expression, blanks around binary operators. */
  function Print(e: Expr, level: int): Text
    requires Formed(e)
    decreases e, 1
  {
    if LevelOf(e) < level then "(" + Body(e) + ")" else Body(e)
  }

  function OperatorText(level: int, k: int): Text
    requires 0 <= k < |Tokens(level)|
  {
    " " + Tokens(level)[k].text + " "
  }

  function UnaryToken(op: int): Token { if op == 0 then NOT else if op == 1 then COMPLEMENT else MINUS }

  function SizeText(size: int): Text
    requires size == 0 || size == 1 || size == 2 || size == 4
  {
    if size == 0 then "" else [':', DigitChar(size)]
  }

  function Body(e: Expr): Text
    requires Formed(e)
    decreases e, 0
  {
    match e
    case Num(n, base) => Spelled(n, base)
    case Named(n) => NameText(n)
    case Un(op, x) => UnaryToken(op).text + Print(x, BINARY)
    case Bin(level, k, l, r) => Print(l, level) + OperatorText(level, k) + Print(r, level + 1)
    case Mem(a, size) => "[" + Print(a, 0) + "]" + SizeText(size)
  }

  // ---- the value of a tree ----

  function Unary(op: int, v: Word): Word { if op == 0 then Bool(v == 0) else if op == 1 then Not(v) else Sub(0, v) }

  function ReadOf(m: Read): Value { if m.Bytes? then Val(m.v) else Bad(NotReadable) }

  /** The value of a tree, or its first error from left to right. */
  function Eval(e: Expr, env: Env): Value
    requires Formed(e)
  {
    match e
    case Num(n, _) => Val(n)
    case Named(n) => NameValue(NameText(n), env)
    case Un(op, x) => (match Eval(x, env) case Bad(er) => Bad(er) case Val(v) => Val(Unary(op, v)))
    case Bin(level, k, l, r) =>
      (match Eval(l, env)
       case Bad(er) => Bad(er)
       case Val(v) => match Eval(r, env) case Bad(er) => Bad(er) case Val(w) => Operate(level, k, v, w))
    case Mem(a, size) =>
      (match Eval(a, env) case Bad(er) => Bad(er) case Val(v) => ReadOf(env.mem(v, if size == 0 then 4 else size)))
  }

  /** How many levels of nesting the printed form needs. */
  function Nesting(e: Expr, level: int): nat
    requires Formed(e)
    decreases e, 1
  {
    if LevelOf(e) < level then 2 + BodyNesting(e) else BodyNesting(e)
  }

  function BodyNesting(e: Expr): nat
    requires Formed(e)
    decreases e, 0
  {
    match e
    case Num(_, _) => 1
    case Named(_) => 1
    case Un(_, x) => 1 + Nesting(x, BINARY)
    case Bin(level, _, l, r) => Max(Nesting(l, level), Nesting(r, level + 1))
    case Mem(a, _) => 2 + Nesting(a, 0)
  }

  function Max(a: nat, b: nat): nat { if a < b then b else a }

  /** The value when `d` levels are already open, with the nesting limit among the errors. */
  function EvalAt(e: Expr, level: int, d: int, env: Env): Value
    requires Formed(e)
    decreases e, 1
  {
    if LevelOf(e) >= level then EvalBody(e, d, env)
    else if d + 2 > LIMIT then Bad(TooDeep)
    else EvalBody(e, d + 2, env)
  }

  function EvalBody(e: Expr, d: int, env: Env): Value
    requires Formed(e)
    decreases e, 0
  {
    match e
    case Num(n, _) => if d + 1 > LIMIT then Bad(TooDeep) else Val(n)
    case Named(n) => if d + 1 > LIMIT then Bad(TooDeep) else NameValue(NameText(n), env)
    case Un(op, x) =>
      if d + 1 > LIMIT then Bad(TooDeep)
      else (match EvalAt(x, BINARY, d + 1, env) case Bad(er) => Bad(er) case Val(v) => Val(Unary(op, v)))
    case Bin(level, k, l, r) =>
      (match EvalAt(l, level, d, env)
       case Bad(er) => Bad(er)
       case Val(v) => match EvalAt(r, level + 1, d, env) case Bad(er) => Bad(er) case Val(w) => Operate(level, k, v, w))
    case Mem(a, size) =>
      if d + 2 > LIMIT then Bad(TooDeep)
      else (match EvalAt(a, 0, d + 2, env) case Bad(er) => Bad(er) case Val(v) => ReadOf(env.mem(v, if size == 0 then 4 else size)))
  }

  /** Within the limit the nesting does not matter. */
  lemma {:induction false} EvalWithin(e: Expr, level: int, d: int, env: Env)
    requires Formed(e) && d + Nesting(e, level) <= LIMIT
    ensures EvalAt(e, level, d, env) == Eval(e, env)
    decreases e, 1
  {
    hide EvalBody; hide Eval; hide BodyNesting;
    BodyWithin(e, if LevelOf(e) < level then d + 2 else d, env);
  }

  lemma {:induction false} BodyWithin(e: Expr, d: int, env: Env)
    requires Formed(e) && d + BodyNesting(e) <= LIMIT
    ensures EvalBody(e, d, env) == Eval(e, env)
    decreases e, 0
  {
    hide Operate; hide NameValue; hide Unary; hide EvalAt; hide Nesting;
    match e {
      case Num(_, _) =>
      case Named(_) =>
      case Un(op, x) => EvalWithin(x, BINARY, d + 1, env);
      case Bin(lv, k, l, r) =>
        EvalWithin(l, lv, d, env);
        EvalWithin(r, lv + 1, d, env);
      case Mem(a, size) => EvalWithin(a, 0, d + 2, env);
    }
  }

  // ---- blanks ----

  lemma {:induction false} SkipTwice(s: Text)
    ensures Skip(Skip(s)) == Skip(s)
    decreases |s|
  {
    if s != [] && (s[0] == ' ' || s[0] == '\t') { SkipTwice(s[1..]); }
  }

  predicate Same(s: Text, t: Text) { Skip(s) == Skip(t) }

  lemma MatchesSame(s: Text, t: Text, tok: Token)
    requires Same(s, t)
    ensures Matches(s, tok) == Matches(t, tok) && (Matches(s, tok) ==> After(s, tok) == After(t, tok))
  {
    hide Skip;
  }

  lemma {:induction false} NextSame(ts: seq<Token>, s: Text, t: Text, i: nat)
    requires Same(s, t) && i <= |ts|
    ensures FirstMatch(ts, s, i) == FirstMatch(ts, t, i)
    decreases |ts| - i
  {
    hide Same; hide Matches;
    if i < |ts| {
      MatchesSame(s, t, ts[i]);
      NextSame(ts, s, t, i + 1);
    }
  }

  /** Equal but for blanks before the text left. */
  predicate Alike(a: Res, b: Res) {
    match a
    case Err(e) => b == Err(e)
    case Ok(v, rest) => b.Ok? && b.v == v && Same(rest, b.rest)
  }

  lemma LoopSame(level: nat, v: Word, s: Text, t: Text, d: int, env: Env)
    requires Same(s, t) && level < BINARY
    ensures Alike(Loop(level, v, s, d, env), Loop(level, v, t, d, env))
  {
    hide ParseLevel; hide Operate; hide Matches; hide Skip; hide Tokens;
    NextSame(Tokens(level), s, t, 0);
    var k := NextOp(level, s);
    SkipTwice(s);
    SkipTwice(t);
    if k >= 0 { MatchesSame(s, t, Tokens(level)[k]); }
  }

  /** Blanks before an operand do not matter. */
  lemma {:induction false} ParseSame(level: nat, s: Text, t: Text, d: int, env: Env)
    requires Same(s, t) && level <= BINARY
    ensures ParseLevel(level, s, d, env) == ParseLevel(level, t, d, env)
    decreases BINARY - level
  {
    if level < BINARY {
      hide Loop; hide Same;
      ParseSame(level + 1, s, t, d, env);
    } else {
      hide Matches; hide Skip; hide ParsePrimary;
      MatchesSame(s, t, NOT);
      MatchesSame(s, t, COMPLEMENT);
      MatchesSame(s, t, MINUS);
    }
  }

  // ---- numbers and names are read back ----

  predicate Ends(tail: Text) { tail == [] || !IsIdent(tail[0]) }

  lemma EndsNumber(tail: Text, base: int, v: Word)
    requires Ends(tail) && (base == 10 || base == 16)
    ensures Scan(tail, base, v) == (v, tail)
  {
  }

  lemma DigitReads(v: int, base: int)
    requires 0 <= v < base && (base == 10 || base == 16)
    ensures DigitValue(DigitChar(v), base) == v
  {
  }

  lemma {:induction false} ScanDigits(n: Word, base: int, tail: Text)
    requires base == 10 || base == 16
    ensures Scan(Digits(n, base) + tail, base, 0) == Scan(tail, base, n)
    decreases n
  {
    hide DigitValue; hide DigitChar; hide Scan;
    Rebuilt(n, base);
    var q: Word, c := n / base, DigitChar(n % base);
    DigitReads(n % base, base);
    if n < base {
      assert Digits(n, base) + tail == [c] + tail;
      ScanStep(c, tail, base, 0);
    } else {
      assert Digits(n, base) + tail == Digits(q, base) + ([c] + tail);
      ScanDigits(q, base, [c] + tail);
      ScanStep(c, tail, base, q);
    }
  }

  lemma Rebuilt(n: Word, base: int)
    requires base == 10 || base == 16
    ensures 0 <= n / base <= n && 0 <= n % base < base && (n / base * base + n % base) % MOD == n && (n < base ==> n / base == 0)
    ensures n >= base ==> n / base < n
  {
    if base == 10 { assert n / 10 * 10 + n % 10 == n; } else { assert n / 16 * 16 + n % 16 == n; }
  }

  lemma ScanStep(c: char, tail: Text, base: int, v: Word)
    requires (base == 10 || base == 16) && DigitValue(c, base) >= 0
    ensures Scan([c] + tail, base, v) == Scan(tail, base, (v * base + DigitValue(c, base)) % MOD)
  {
    assert ([c] + tail)[1..] == tail;
  }

  /** The first digit of a decimal number is not a zero before an x. */
  lemma {:induction false} DecimalStart(n: nat, tail: Text)
    requires Ends(tail)
    ensures var t := Digits(n, 10) + tail; IsDigit(t[0]) && NumberStart(t) == (10, t)
    decreases n
  {
    if n < 10 {
      assert (Digits(n, 10) + tail)[0] == DigitChar(n);
    } else {
      var rest := [DigitChar(n % 10)] + tail;
      assert Digits(n, 10) + tail == Digits(n / 10, 10) + rest;
      DecimalInner(n / 10, rest);
    }
  }

  lemma {:induction false} DecimalInner(n: nat, rest: Text)
    requires rest != [] && IsDigit(rest[0])
    ensures var t := Digits(n, 10) + rest; IsDigit(t[0]) && NumberStart(t) == (10, t)
    decreases n
  {
    if n >= 10 {
      var more := [DigitChar(n % 10)] + rest;
      assert Digits(n, 10) + rest == Digits(n / 10, 10) + more;
      DecimalInner(n / 10, more);
    } else {
      assert (Digits(n, 10) + rest)[0] == DigitChar(n) && (Digits(n, 10) + rest)[1] == rest[0];
    }
  }

  lemma NumberReads(n: Word, base: Base, tail: Text)
    requires Ends(tail)
    ensures var t := Spelled(n, base) + tail;
            t != [] && ParseNumber(t) == Ok(n, tail) && (IsDigit(t[0]) || t[0] == '&')
  {
    hide Digits; hide Scan;
    var b := if base == Decimal then 10 else 16;
    var t := Spelled(n, base) + tail;
    ScanDigits(n, b, tail);
    EndsNumber(tail, b, n);
    match base {
      case Decimal => DecimalStart(n, tail);
      case Hex0x => assert t[2..] == Digits(n, 16) + tail;
      case HexAmpersand => assert t[1..] == Digits(n, 16) + tail;
    }
  }

  lemma NameShape(n: Name)
    requires NameOk(n)
    ensures var t := NameText(n);
            && 1 <= |t| <= 4 && 'a' <= t[0] <= 'z' && (forall i :: 0 <= i < |t| ==> IsIdent(t[i]) && Lower(t[i]) == t[i])
  {
  }

  lemma {:induction false} NameRun(t: Text, tail: Text)
    requires Ends(tail) && forall i :: 0 <= i < |t| ==> IsIdent(t[i])
    ensures NameLength(t + tail) == |t|
    decreases |t|
  {
    if t == [] {
      assert t + tail == tail;
    } else {
      assert (t + tail)[1..] == t[1..] + tail;
      NameRun(t[1..], tail);
    }
  }

  lemma NameReads(n: Name, tail: Text, env: Env)
    requires NameOk(n) && Ends(tail)
    ensures ParseName(NameText(n) + tail, env) ==
            match NameValue(NameText(n), env) { case Val(v) => Ok(v, tail) case Bad(e) => Err(e) }
  {
    hide NameValue; hide NameText; hide NameLength;
    var t := NameText(n);
    NameShape(n);
    NameRun(t, tail);
    assert (t + tail)[..|t|] == t && (t + tail)[|t|..] == tail;
    assert Lowered(t) == t;
  }

  // ---- operators are told apart ----

  /** Text that begins with something other than a blank. */
  lemma SkipNone(s: Text)
    requires s != [] && s[0] != ' ' && s[0] != '\t'
    ensures Skip(s) == s
  {
  }

  lemma SkipBlank(s: Text)
    ensures Skip(" " + s) == Skip(s)
  {
    assert (" " + s)[1..] == s;
  }

  /** The first two characters decide which token matches. */
  predicate Fits(tok: Token, a: char, b: char)
    requires 1 <= |tok.text| <= 2
  {
    if |tok.text| == 1 then tok.text[0] == a && b !in tok.nots else tok.text[0] == a && tok.text[1] == b
  }

  lemma MatchesFits(s: Text, tok: Token)
    requires |s| >= 3 && s[0] != ' ' && s[0] != '\t' && (|tok.text| == 1 || (|tok.text| == 2 && tok.nots == ""))
    ensures Matches(s, tok) <==> Fits(tok, s[0], s[1])
  {
    SkipNone(s);
  }

  lemma TokenShapes(level: int, k: int)
    requires 0 <= k < |Tokens(level)|
    ensures var t := Tokens(level)[k]; |t.text| == 1 || (|t.text| == 2 && t.nots == "")
    ensures var t := Tokens(level)[k]; t.text[0] != ' ' && t.text[0] != '\t' && t.text[0] != ':'
  {
  }

  /** The two characters an operator followed by a blank begins with. */
  function Second(tok: Token): char
    requires 1 <= |tok.text| <= 2
  {
    if |tok.text| == 1 then ' ' else tok.text[1]
  }

  /** An operator fits itself, nothing tried before it at its level, and nothing at a tighter level. */
  lemma FitsItself(level: int, k: int, other: int, j: int)
    requires 0 <= level <= other < BINARY && 0 <= k < |Tokens(level)| && 0 <= j < |Tokens(other)|
    requires other == level ==> j <= k
    ensures 1 <= |Tokens(level)[k].text| <= 2 && 1 <= |Tokens(other)[j].text| <= 2
    ensures var t := Tokens(level)[k]; Fits(Tokens(other)[j], t.text[0], Second(t)) <==> other == level && j == k
  {
  }

  /** A match is found at `k` when it is there and not before. */
  lemma {:induction false} FirstMatchIs(ts: seq<Token>, s: Text, i: nat, k: int)
    requires i <= |ts| && (k == -1 || i <= k < |ts|)
    requires forall j :: i <= j < |ts| && (k == -1 || j <= k) ==> (Matches(s, ts[j]) <==> j == k)
    ensures FirstMatch(ts, s, i) == k
    decreases |ts| - i
  {
    hide Matches;
    if i < |ts| && i != k { FirstMatchIs(ts, s, i + 1, k); }
  }

  /** The text left cannot continue an operand of the level: no name goes on, no size, no operator as tight as that. */
  predicate Clean(tail: Text, level: int) {
    Ends(tail) && !Matches(tail, COLON) && forall lv :: level <= lv < BINARY ==> NextOp(lv, tail) == -1
  }

  /** An operator of a level is found there and at no tighter one. */
  lemma OperatorNext(level: int, k: int, rest: Text)
    requires 0 <= level < BINARY && 0 <= k < |Tokens(level)| && rest != []
    ensures var s := OperatorText(level, k) + rest;
            NextOp(level, s) == k && After(s, Tokens(level)[k]) == " " + rest && Clean(s, level + 1)
  {
    hide Tokens; hide Skip; hide Fits; hide Matches;
    var tok := Tokens(level)[k];
    var s := OperatorText(level, k) + rest;
    var t := tok.text + (" " + rest);
    TokenShapes(level, k);
    assert s == " " + t;
    SkipBlank(t);
    SkipNone(t);
    assert Same(s, t);
    forall lv, j | level <= lv < BINARY && 0 <= j < |Tokens(lv)| && (lv == level ==> j <= k)
      ensures Matches(s, Tokens(lv)[j]) <==> lv == level && j == k
    {
      TokenShapes(lv, j);
      MatchesSame(s, t, Tokens(lv)[j]);
      MatchesFits(t, Tokens(lv)[j]);
      FitsItself(level, k, lv, j);
      assert t[0] == tok.text[0] && t[1] == Second(tok);
    }
    FirstMatchIs(Tokens(level), s, 0, k);
    forall lv | level + 1 <= lv < BINARY ensures NextOp(lv, s) == -1 {
      FirstMatchIs(Tokens(lv), s, 0, -1);
    }
    AfterToken(s, t, tok, " " + rest);
    NoColon(s, t);
  }

  lemma AfterToken(s: Text, t: Text, tok: Token, rest: Text)
    requires Skip(s) == t && t == tok.text + rest && Matches(s, tok)
    ensures After(s, tok) == rest
  {
  }

  lemma NoColon(s: Text, t: Text)
    requires Skip(s) == t && t != [] && t[0] != ':'
    ensures !Matches(s, COLON)
  {
  }

  /** A closing bracket, or the end, continues nothing. */
  lemma CloserClean(tail: Text)
    requires tail == [] || tail[0] == ')' || tail[0] == ']'
    ensures Clean(tail, 0)
  {
    hide Tokens;
    if tail != [] { SkipNone(tail); }
    assert Skip(tail) == tail;
    forall lv | 0 <= lv < BINARY ensures NextOp(lv, tail) == -1 {
      forall j | 0 <= j < |Tokens(lv)| ensures !Matches(tail, Tokens(lv)[j]) {
        TokenStarts(lv, j);
      }
      FirstMatchIs(Tokens(lv), tail, 0, -1);
    }
  }

  lemma TokenStarts(level: int, k: int)
    requires 0 <= k < |Tokens(level)|
    ensures var t := Tokens(level)[k].text; |t| > 0 && t[0] != ')' && t[0] != ']'
  {
  }

  lemma {:induction false} PrintStarts(e: Expr, level: int)
    requires Formed(e)
    ensures var t := Print(e, level); t != [] && t[0] != ' ' && t[0] != '\t' && t[0] != '='
    decreases e
  {
    match e {
      case Num(n, base) =>
        NumberReads(n, base, []);
        assert Spelled(n, base) + [] == Spelled(n, base);
      case Named(n) => NameShape(n);
      case Un(op, x) =>
      case Bin(lv, k, l, r) => PrintStarts(l, lv);
      case Mem(a, size) =>
    }
  }

  // ---- parsing the text of a tree ----

  /** The parser has come to the value, and to the text after the tree. */
  predicate Yields(r: Res, v: Value, tail: Text) {
    match v
    case Bad(e) => r == Err(e)
    case Val(x) => r.Ok? && r.v == x && Same(r.rest, tail)
  }

  /** It is in the loop of a level, with the value in hand. */
  predicate Reaches(r: Res, v: Value, level: nat, tail: Text, d: int, env: Env)
    requires level < BINARY
  {
    match v
    case Bad(e) => r == Err(e)
    case Val(x) => Alike(r, Loop(level, x, tail, d, env))
  }

  /** Not a unary operator: an operand. */
  lemma UnaryPasses(s: Text, d: int, env: Env)
    requires s != [] && s[0] !in " \t!~-" && d + 1 <= LIMIT
    ensures ParseUnary(s, d, env) == ParsePrimary(s, d + 1, env)
  {
    hide ParsePrimary;
    SkipNone(s);
  }

  lemma UnaryTakes(op: int, t: Text, d: int, env: Env)
    requires 0 <= op < 3 && d + 1 <= LIMIT && t != [] && t[0] != '='
    ensures ParseUnary(UnaryToken(op).text + t, d, env) ==
            match ParseUnary(t, d + 1, env) { case Err(e) => Err(e) case Ok(v, rest) => Ok(Unary(op, v), rest) }
  {
    hide ParsePrimary;
    var s := UnaryToken(op).text + t;
    SkipNone(s);
    assert s[1] == t[0] && s[1..] == t;
  }

  lemma UnaryDeep(s: Text, d: int, env: Env)
    requires d + 1 > LIMIT
    ensures ParseUnary(s, d, env) == Err(TooDeep)
  {
  }

  /** A parenthesis or bracket, and what is inside. */
  lemma PrimaryOpens(c: char, t: Text, d: int, env: Env)
    requires c == '(' || c == '['
    ensures ParsePrimary([c] + t, d, env) ==
            match ParseExpr(t, d, env) {
              case Err(e) => Err(e)
              case Ok(v, rest) =>
                if c == '(' then (if Matches(rest, CLOSE) then Ok(v, After(rest, CLOSE)) else Err(ExpectedParen))
                else (if Matches(rest, UNBRACKET) then Memory(v, After(rest, UNBRACKET), env) else Err(ExpectedBracket))
            }
  {
    hide ParseExpr; hide Matches; hide Memory;
    SkipNone([c] + t);
    assert ([c] + t)[1..] == t;
  }

  /** The closing bracket after it. */
  lemma Closes(rest: Text, c: char, tail: Text)
    requires Same(rest, [c] + tail) && (c == ')' || c == ']')
    ensures Matches(rest, Token([c], "")) && After(rest, Token([c], "")) == tail
  {
    SkipNone([c] + tail);
    assert ([c] + tail)[1..] == tail;
  }

  lemma MemoryReads(a: Word, size: int, tail: Text, env: Env)
    requires (size == 0 || size == 1 || size == 2 || size == 4) && Clean(tail, BINARY)
    ensures Yields(Memory(a, SizeText(size) + tail, env), ReadOf(env.mem(a, if size == 0 then 4 else size)), tail)
  {
    hide NextOp; hide ParseNumber; hide Skip;
    var s := SizeText(size) + tail;
    SkipTwice(tail);
    if size == 0 {
      assert s == tail;
    } else {
      SizeReads(size, tail);
    }
  }

  lemma SizeReads(size: int, tail: Text)
    requires (size == 1 || size == 2 || size == 4) && Ends(tail)
    ensures var s := SizeText(size) + tail; Matches(s, COLON) && ParseNumber(Skip(After(s, COLON))) == Ok(size, tail)
  {
    hide ParseNumber;
    var s, t := SizeText(size) + tail, Spelled(size, Decimal) + tail;
    assert Digits(size, 10) == [DigitChar(size)];
    assert s == ":" + t;
    NumberReads(size, Decimal, tail);
    SkipNone(s);
    assert s[1..] == t;
    SkipNone(t);
  }

  /** An expression tree inside brackets. */
  lemma Inside(e: Expr, d: int, tail: Text, c: char, env: Env)
    requires Formed(e) && (c == ')' || c == ']')
    requires d + 1 <= LIMIT ==> Yields(ParseLevel(0, Print(e, 0) + ([c] + tail), d + 1, env), EvalAt(e, 0, d + 1, env), [c] + tail)
    ensures var r := ParseExpr(Print(e, 0) + ([c] + tail), d, env);
            if d + 1 > LIMIT then r == Err(TooDeep)
            else Yields(r, EvalAt(e, 0, d + 1, env), [c] + tail)
  {
    hide ParseLevel; hide EvalAt; hide Yields; hide Print;
  }

  lemma {:induction false} Parses(e: Expr, level: nat, d: int, tail: Text, env: Env)
    requires Formed(e) && level <= BINARY && Clean(tail, level)
    ensures Yields(ParseLevel(level, Print(e, level) + tail, d, env), EvalAt(e, level, d, env), tail)
    decreases e, if LevelOf(e) < level then 1 else 0, 2 * (BINARY - level) + 1
  {
    hide ParseUnary; hide Loop; hide Clean; hide Same; hide Operate; hide NameValue; hide Print; hide ParseExpr;
    if level < BINARY {
      CleanMore(tail, level);
      Enters(e, level, d, tail, env);
      LoopStops(level, EvalAt(e, level, d, env), tail, d, env);
    } else if LevelOf(e) < BINARY {
      ParsesParens(e, d, tail, env);
    } else {
      ParsesOperand(e, d, tail, env);
    }
  }

  lemma CleanMore(tail: Text, level: int)
    requires Clean(tail, level)
    ensures Clean(tail, level + 1) && Ends(tail) && (level < BINARY && level >= 0 ==> NextOp(level, tail) == -1)
  {
  }

  lemma LoopStops(level: nat, v: Value, tail: Text, d: int, env: Env)
    requires level < BINARY && NextOp(level, tail) == -1
    ensures forall r: Res :: Reaches(r, v, level, tail, d, env) ==> Yields(r, v, tail)
  {
    hide NextOp; hide ParseLevel;
    SkipTwice(tail);
  }

  lemma {:induction false} Enters(e: Expr, level: nat, d: int, tail: Text, env: Env)
    requires Formed(e) && level < BINARY && Clean(tail, level + 1)
    ensures Reaches(ParseLevel(level, Print(e, level) + tail, d, env), EvalAt(e, level, d, env), level, tail, d, env)
    decreases e, if LevelOf(e) < level then 1 else 0, 2 * (BINARY - level)
  {
    hide Loop; hide Clean; hide Operate; hide NameValue; hide Print; hide Same; hide EvalAt;
    if LevelOf(e) == level {
      EntersBinary(e, d, tail, env);
    } else {
      Tighter(e, level, d, env);
      Parses(e, level + 1, d, tail, env);
      EntersLoop(level, EvalAt(e, level, d, env), Print(e, level) + tail, tail, d, env);
    }
  }

  /** Away from its own level, a tree prints and counts the same one level up. */
  lemma Tighter(e: Expr, level: int, d: int, env: Env)
    requires Formed(e) && LevelOf(e) != level
    ensures Print(e, level) == Print(e, level + 1) && EvalAt(e, level, d, env) == EvalAt(e, level + 1, d, env)
  {
    hide Body; hide EvalBody;
  }

  lemma EntersLoop(level: nat, v: Value, s: Text, tail: Text, d: int, env: Env)
    requires level < BINARY && Yields(ParseLevel(level + 1, s, d, env), v, tail)
    ensures Reaches(ParseLevel(level, s, d, env), v, level, tail, d, env)
  {
    hide Loop; hide Same;
    var r := ParseLevel(level + 1, s, d, env);
    if r.Ok? { LoopSame(level, r.v, r.rest, tail, d, env); }
  }

  lemma {:induction false} EntersBinary(e: Expr, d: int, tail: Text, env: Env)
    requires Formed(e) && e.Bin? && Clean(tail, e.level + 1)
    ensures Reaches(ParseLevel(e.level, Print(e, e.level) + tail, d, env), EvalAt(e, e.level, d, env), e.level, tail, d, env)
    decreases e, 0, 0
  {
    hide ParseLevel; hide Loop; hide Clean; hide Operate; hide NameValue; hide Print; hide Same; hide Tokens; hide EvalAt;
    var level, k, l, r := e.level, e.k, e.l, e.r;
    var right := Print(r, level + 1) + tail;
    var tail1 := OperatorText(level, k) + right;
    PrintStarts(r, level + 1);
    OperatorNext(level, k, right);
    Enters(l, level, d, tail1, env);
    PrintBinary(e, tail);
    var vl := EvalAt(l, level, d, env);
    EvalBinary(e, d, env);
    if vl.Val? {
      Parses(r, level + 1, d, tail, env);
      LoopTakes(level, k, vl.v, tail1, right, EvalAt(r, level + 1, d, env), tail, d, env);
      AlikeReaches(ParseLevel(level, Print(e, level) + tail, d, env), Loop(level, vl.v, tail1, d, env), EvalAt(e, level, d, env), level, tail, d, env);
    }
  }

  lemma EvalBinary(e: Expr, d: int, env: Env)
    requires Formed(e) && e.Bin?
    ensures var vl, vr := EvalAt(e.l, e.level, d, env), EvalAt(e.r, e.level + 1, d, env);
            EvalAt(e, e.level, d, env) == if vl.Bad? then vl else if vr.Bad? then vr else Operate(e.level, e.k, vl.v, vr.v)
  {
    hide Operate;
  }

  lemma PrintBinary(e: Expr, tail: Text)
    requires Formed(e) && e.Bin?
    ensures Print(e, e.level) + tail == Print(e.l, e.level) + (OperatorText(e.level, e.k) + (Print(e.r, e.level + 1) + tail))
  {
    hide OperatorText; hide Spelled; hide NameText; hide SizeText;
    assert Print(e, e.level) == Body(e);
    Glue(Print(e.l, e.level), OperatorText(e.level, e.k), Print(e.r, e.level + 1), tail);
  }

  lemma Glue(a: Text, b: Text, c: Text, d: Text)
    ensures a + b + c + d == a + (b + (c + d))
  {
  }

  lemma AlikeReaches(a: Res, b: Res, v: Value, level: nat, tail: Text, d: int, env: Env)
    requires level < BINARY && Alike(a, b) && Reaches(b, v, level, tail, d, env)
    ensures Reaches(a, v, level, tail, d, env)
  {
    hide Loop;
  }

  /** The loop takes an operator and its right operand, and is in the loop again. */
  lemma LoopTakes(level: nat, k: int, v: Word, s: Text, right: Text, vr: Value, tail: Text, d: int, env: Env)
    requires level < BINARY && 0 <= k < |Tokens(level)| && NextOp(level, s) == k && After(s, Tokens(level)[k]) == " " + right
    requires Yields(ParseLevel(level + 1, right, d, env), vr, tail)
    ensures Reaches(Loop(level, v, s, d, env), if vr.Bad? then vr else Operate(level, k, v, vr.v), level, tail, d, env)
  {
    hide ParseLevel; hide Operate; hide Tokens; hide NextOp; hide Skip;
    SkipBlank(right);
    ParseSame(level + 1, " " + right, right, d, env);
    LoopUnfolds(level, v, s, d, env);
    if vr.Val? {
      var w := ParseLevel(level + 1, right, d, env);
      var x := Operate(level, k, v, vr.v);
      if x.Val? { LoopSame(level, x.v, w.rest, tail, d, env); }
    }
  }

  /** What the loop makes of a right operand. */
  function Continue(level: nat, k: int, v: Word, r: Res, d: int, env: Env): Res
    requires level < BINARY
  {
    if r.Err? then r
    else
      var x := Operate(level, k, v, r.v);
      if x.Bad? then Err(x.e) else Loop(level, x.v, r.rest, d, env)
  }

  lemma LoopUnfolds(level: nat, v: Word, s: Text, d: int, env: Env)
    requires level < BINARY && NextOp(level, s) >= 0
    ensures var k := NextOp(level, s);
            Loop(level, v, s, d, env) == Continue(level, k, v, ParseLevel(level + 1, After(s, Tokens(level)[k]), d, env), d, env)
  {
    hide ParseLevel; hide Operate; hide Tokens; hide NextOp; hide Skip;
  }

  lemma {:induction false} ParsesParens(e: Expr, d: int, tail: Text, env: Env)
    requires Formed(e) && LevelOf(e) < BINARY
    ensures Yields(ParseUnary(Print(e, BINARY) + tail, d, env), EvalAt(e, BINARY, d, env), tail)
    decreases e, 1, 0
  {
    hide ParseUnary; hide ParseExpr; hide ParseLevel; hide EvalBody; hide Matches; hide Body; hide Skip;
    var text := Print(e, BINARY) + tail;
    assert Token([')'], "") == CLOSE;
    assert text == "(" + (Print(e, 0) + (")" + tail));
    if d + 1 > LIMIT {
      UnaryDeep(text, d, env);
    } else {
      UnaryPasses(text, d, env);
      PrimaryOpens('(', Print(e, 0) + (")" + tail), d + 1, env);
      if d + 2 <= LIMIT {
        CloserClean(")" + tail);
        Parses(e, 0, d + 2, ")" + tail, env);
      }
      Inside(e, d + 1, tail, ')', env);
      var r := ParseExpr(Print(e, 0) + (")" + tail), d + 1, env);
      if r.Ok? { Closes(r.rest, ')', tail); }
    }
  }

  lemma {:induction false} ParsesUnary(op: int, x: Expr, d: int, tail: Text, env: Env)
    requires Formed(Un(op, x)) && Clean(tail, BINARY) && Clean(tail, BINARY + 1) && d + 1 <= LIMIT
    ensures Yields(ParseUnary(Print(Un(op, x), BINARY) + tail, d, env), EvalAt(Un(op, x), BINARY, d, env), tail)
    decreases x, 2, 0
  {
    hide ParseUnary; hide ParseExpr; hide ParseLevel; hide ParsePrimary; hide NameValue; hide Spelled; hide NameText; hide ParseNumber; hide ParseName; hide Memory; hide Matches; hide Same; hide Clean;
    var t := Print(x, BINARY) + tail;
    assert Print(Un(op, x), BINARY) + tail == UnaryToken(op).text + t;
    PrintStarts(x, BINARY);
    UnaryTakes(op, t, d, env);
    Parses(x, BINARY, d + 1, tail, env);
    AtTop(t, d + 1, env);
  }

  lemma {:induction false} ParsesOperand(e: Expr, d: int, tail: Text, env: Env)
    requires Formed(e) && LevelOf(e) == BINARY && Clean(tail, BINARY)
    ensures Yields(ParseUnary(Print(e, BINARY) + tail, d, env), EvalAt(e, BINARY, d, env), tail)
    decreases e, 0, 0
  {
    hide ParseUnary; hide ParseExpr; hide ParseLevel; hide ParsePrimary; hide NameValue; hide Spelled; hide NameText; hide ParseNumber; hide ParseName; hide Memory; hide Matches; hide Same; hide Clean;
    var text := Print(e, BINARY) + tail;
    assert Print(e, BINARY) == Body(e);
    CleanMore(tail, BINARY);
    if d + 1 > LIMIT {
      UnaryDeep(text, d, env);
    } else {
      match e {
        case Num(n, base) => OperandNumber(n, base, tail, d, env);
        case Named(n) => OperandName(n, tail, d, env);
        case Un(op, x) => ParsesUnary(op, x, d, tail, env);
        case Mem(a, size) =>
          ParsesMemory(a, size, d, tail, env);
          assert text == "[" + (Print(a, 0) + ("]" + (SizeText(size) + tail)));
        case Bin(_, _, _, _) =>
      }
    }
  }

  lemma AtTop(s: Text, d: int, env: Env)
    ensures ParseLevel(BINARY, s, d, env) == ParseUnary(s, d, env)
  {
    hide ParseUnary;
  }

  lemma OperandNumber(n: Word, base: Base, tail: Text, d: int, env: Env)
    requires d + 1 <= LIMIT && Ends(tail)
    ensures Yields(ParseUnary(Spelled(n, base) + tail, d, env), Val(n), tail)
  {
    hide Spelled; hide ParseNumber; hide ParseUnary; hide ParseExpr;
    var text := Spelled(n, base) + tail;
    NumberReads(n, base, tail);
    UnaryPasses(text, d, env);
    SkipNone(text);
  }

  lemma OperandName(n: Name, tail: Text, d: int, env: Env)
    requires NameOk(n) && d + 1 <= LIMIT && Ends(tail)
    ensures Yields(ParseUnary(NameText(n) + tail, d, env), NameValue(NameText(n), env), tail)
  {
    hide NameText; hide NameValue; hide ParseName; hide ParseUnary; hide ParseExpr;
    var text := NameText(n) + tail;
    NameShape(n);
    NameReads(n, tail, env);
    UnaryPasses(text, d, env);
    SkipNone(text);
  }

  lemma {:induction false} ParsesMemory(a: Expr, size: int, d: int, tail: Text, env: Env)
    requires Formed(a) && (size == 0 || size == 1 || size == 2 || size == 4) && Clean(tail, BINARY) && d + 1 <= LIMIT
    ensures var text := "[" + (Print(a, 0) + ("]" + (SizeText(size) + tail)));
            Yields(ParseUnary(text, d, env), EvalBody(Mem(a, size), d, env), tail)
    decreases a, 2, 0
  {
    hide ParseUnary; hide ParseExpr; hide ParseLevel; hide Matches; hide Same; hide Clean; hide Print; hide Memory; hide EvalAt;
    var inner := Print(a, 0) + ("]" + (SizeText(size) + tail));
    UnaryPasses("[" + inner, d, env);
    PrimaryOpens('[', inner, d + 1, env);
    if d + 2 <= LIMIT {
      CloserClean("]" + (SizeText(size) + tail));
      Parses(a, 0, d + 2, "]" + (SizeText(size) + tail), env);
    }
    Inside(a, d + 1, SizeText(size) + tail, ']', env);
    var r := ParseExpr(inner, d + 1, env);
    if r.Ok? {
      Closes(r.rest, ']', SizeText(size) + tail);
      MemoryReads(r.v, size, tail, env);
    }
  }

  /** The text of a tree evaluates to the tree's value, with the nesting limit among its errors. */
  lemma EvaluatesAt(e: Expr, env: Env)
    requires Formed(e)
    ensures Evaluate(Print(e, 0), env) == EvalAt(e, 0, 1, env)
  {
    hide ParseLevel; hide EvalAt; hide Print;
    CloserClean("");
    Parses(e, 0, 1, "", env);
    assert Print(e, 0) + "" == Print(e, 0);
  }

  /** Within the nesting limit: to the value of the tree, or to its first error from left to right. */
  lemma Evaluates(e: Expr, env: Env)
    requires Formed(e) && 1 + Nesting(e, 0) <= LIMIT
    ensures Evaluate(Print(e, 0), env) == Eval(e, env)
  {
    hide Evaluate; hide Eval; hide EvalAt; hide Nesting; hide Print;
    EvaluatesAt(e, env);
    EvalWithin(e, 0, 1, env);
  }

  // ---- what the check accepts ----

  /** The value of a tree when every operand reads as zero, and a division by zero gives zero. */
  function AtZero(e: Expr): Word
    requires Formed(e)
  {
    match e
    case Num(n, _) => n
    case Named(_) => 0
    case Un(op, x) => Unary(op, AtZero(x))
    case Bin(level, k, l, r) => var v := Operate(level, k, AtZero(l), AtZero(r)); if v.Val? then v.v else 0
    case Mem(_, _) => 0
  }

  /** Every divisor in a tree is nonzero when every register and all memory read as zero. */
  predicate DivisorsNonzero(e: Expr)
    requires Formed(e)
  {
    match e
    case Num(_, _) => true
    case Named(_) => true
    case Un(_, x) => DivisorsNonzero(x)
    case Bin(level, k, l, r) => DivisorsNonzero(l) && DivisorsNonzero(r) && (level == 9 && k > 0 ==> AtZero(r) != 0)
    case Mem(a, _) => DivisorsNonzero(a)
  }

  lemma NamesAtZero(n: Name)
    requires NameOk(n)
    ensures NameValue(NameText(n), Zeros()) == Val(0)
  {
    LsrOfZero(31);
    LsrOfZero(30);
    LsrOfZero(29);
    LsrOfZero(28);
    hide Lsr;
    var t := NameText(n);
    if n.R? { RegisterText(n.i); }
  }

  lemma {:induction false} LsrOfZero(n: nat)
    ensures Lsr(0, n) == 0
    decreases n
  {
    if n > 0 { LsrOfZero(n - 1); }
  }

  lemma RegisterText(i: int)
    requires 0 <= i <= 15
    ensures RegisterOf(NameText(R(i))) == i
  {
  }

  lemma OperateFails(level: int, k: int, a: Word, b: Word)
    requires 0 <= level < BINARY && 0 <= k < |Tokens(level)|
    ensures Operate(level, k, a, b).Bad? <==> level == 9 && k > 0 && b == 0
  {
    hide AndW; hide OrW; hide XorW; hide Lsl; hide Lsr; hide Mul;
  }

  lemma {:induction false} EvalAtZero(e: Expr)
    requires Formed(e)
    ensures Eval(e, Zeros()).Val? <==> DivisorsNonzero(e)
    ensures DivisorsNonzero(e) ==> Eval(e, Zeros()) == Val(AtZero(e))
    decreases e
  {
    hide Operate; hide NameValue; hide Unary;
    match e {
      case Num(_, _) =>
      case Named(n) => NamesAtZero(n);
      case Un(_, x) => EvalAtZero(x);
      case Bin(level, k, l, r) =>
        EvalAtZero(l);
        EvalAtZero(r);
        OperateFails(level, k, AtZero(l), AtZero(r));
      case Mem(a, _) => EvalAtZero(a);
    }
  }

  /** The check accepts an expression if and only if no divisor in it is zero when everything reads as zero. */
  lemma CheckAccepts(e: Expr)
    requires Formed(e) && 1 + Nesting(e, 0) <= LIMIT
    ensures Check(Print(e, 0)).Val? <==> DivisorsNonzero(e)
  {
    hide Evaluate; hide Print; hide Nesting; hide Eval; hide DivisorsNonzero;
    Evaluates(e, Zeros());
    EvalAtZero(e);
  }

  /** The text "1 / r0": valid on every machine whose R0 is not zero, and refused by the check. */
  lemma CheckRefuses(env: Env)
    requires env.reg(0) != 0
    ensures var e := Bin(9, 1, Num(1, Decimal), Named(R(0)));
            Formed(e) && Evaluate(Print(e, 0), env) == Val(1 / env.reg(0)) && Check(Print(e, 0)) == Bad(DivisionByZero)
  {
    hide Evaluate; hide Print;
    var e := Bin(9, 1, Num(1, Decimal), Named(R(0)));
    Evaluates(e, env);
    Evaluates(e, Zeros());
    assert NameText(R(0)) == ['r', '0'];
    assert RegisterOf(['r', '0']) == 0;
  }

  // ---- the parser as the source writes it ----

  /** The cursor as the text left, the nesting depth, and the first error. */
  class Parser {
    var p: Text
    var depth: int
    var error: seq<Error>
    const env: Env

    constructor (expr: Text, env: Env)
      ensures p == expr && depth == 0 && error == [] && this.env == env
    {
      p, depth, error := expr, 0, [];
      this.env := env;
    }

    /** A call is done: success with a value, or failure with the error recorded; the depth is as before. */
    ghost predicate Done(r: Res, ok: bool, out: Word, depth0: int)
      reads this
    {
      && depth == depth0 && ok == r.Ok?
      && (if ok then out == r.v && p == r.rest && error == [] else error == [r.e])
    }

    method Fail(e: Error)
      modifies this`error
      ensures error == if old(error) == [] then [e] else old(error)
    {
      if error == [] { error := [e]; }
    }

    method SkipSpace()
      modifies this`p
      ensures p == Skip(old(p))
    {
      while p != [] && (p[0] == ' ' || p[0] == '\t')
        invariant Skip(p) == Skip(old(p))
        decreases |p|
      {
        p := p[1..];
      }
    }

    /** accept(), and accept_exact() where there is something it must not be followed by. */
    method Accept(t: Token) returns (ok: bool)
      modifies this`p
      ensures ok == Matches(old(p), t)
      ensures p == if ok then After(old(p), t) else if t.nots == "" then Skip(old(p)) else old(p)
    {
      var save := p;
      SkipSpace();
      if !(t.text <= p) || (|p| > |t.text| && p[|t.text|] in t.nots) {
        if t.nots != "" { p := save; }
        return false;
      }
      p := p[|t.text|..];
      return true;
    }

    method Number() returns (ok: bool, out: Word)
      requires error == []
      modifies this
      ensures Done(ParseNumber(old(p)), ok, out, old(depth))
    {
      out := 0;
      var base := 10;
      if |p| > 0 && p[0] == '&' {
        base := 16;
        p := p[1..];
      } else if |p| > 1 && p[0] == '0' && Lower(p[1]) == 'x' {
        base := 16;
        p := p[2..];
      }
      var digits := 0;
      ghost var start := p;
      while p != [] && DigitValue(p[0], base) >= 0
        invariant Scan(p, base, out) == Scan(start, base, 0) && (digits == 0 <==> p == start) && digits >= 0 && |p| + digits == |start|
        invariant depth == old(depth) && error == []
        decreases |p|
      {
        out := (out * base + DigitValue(p[0], base)) % MOD;
        digits := digits + 1;
        p := p[1..];
      }
      if digits == 0 {
        Fail(ExpectedNumber);
        return false, 0;
      }
      ok := true;
    }

    method Identifier() returns (ok: bool, out: Word)
      requires error == []
      modifies this
      ensures Done(ParseName(old(p), env), ok, out, old(depth))
    {
      hide NameValue;
      out := 0;
      var name: Text := [];
      ghost var start := p;
      while p != [] && IsIdent(p[0]) && |name| < 7
        invariant |name| <= 7 && |name| <= |start| && p == start[|name|..] && name == Lowered(start[..|name|])
        invariant NameLength(start) == |name| + NameLength(p)
        invariant depth == old(depth) && error == []
        decreases |p|
      {
        name := name + [Lower(p[0])];
        p := p[1..];
      }
      if name == [] {
        Fail(ExpectedValue);
        return false, 0;
      }
      if p != [] && IsIdent(p[0]) {
        Fail(UnknownName);
        return false, 0;
      }
      var v := NameValue(name, env);
      if v.Bad? {
        Fail(v.e);
        return false, 0;
      }
      return true, v.v;
    }

    /** parse_expr(). */
    method Expression() returns (ok: bool, out: Word)
      requires error == []
      modifies this
      ensures Done(ParseExpr(old(p), old(depth), env), ok, out, old(depth))
      decreases |p|, 40
    {
      hide ParseLevel;
      depth := depth + 1;
      if depth > LIMIT {
        depth := depth - 1;
        Fail(TooDeep);
        return false, 0;
      }
      ok, out := Level(0);
      depth := depth - 1;
    }

    /** parse_and() down to parse_mul(), which are the same loop over different operators. */
    method Level(level: nat) returns (ok: bool, out: Word)
      requires error == [] && level <= BINARY
      modifies this
      ensures Done(ParseLevel(level, old(p), old(depth), env), ok, out, old(depth))
      decreases |p|, 30 - level
    {
      hide ParseUnary; hide Loop; hide NextOp; hide Operate; hide Tokens; hide Matches;
      AtTop(p, depth, env);
      if level == BINARY {
        ok, out := UnaryOperand();
        return;
      }
      ghost var start, d := p, depth;
      ok, out := Level(level + 1);
      LevelUnfolds(level, start, d, env);
      if !ok { return; }
      while true
        invariant depth == d && error == [] && |p| <= |start|
        invariant Loop(level, out, p, d, env) == ParseLevel(level, start, d, env)
        decreases |p|
      {
        LoopStep(level, out, p, d, env);
        var k := NextOp(level, p);
        if k < 0 {
          p := Settle(level, p);
          return true, out;
        }
        AfterShrinks(p, level, k);
        p := After(p, Tokens(level)[k]);
        var rhs;
        ok, rhs := Level(level + 1);
        if !ok { return false, 0; }
        var x := Operate(level, k, out, rhs);
        if x.Bad? {
          Fail(x.e);
          return false, 0;
        }
        out := x.v;
      }
    }

    method UnaryOperand() returns (ok: bool, out: Word)
      requires error == []
      modifies this
      ensures Done(ParseUnary(old(p), old(depth), env), ok, out, old(depth))
      decreases |p|, 10
    {
      hide ParsePrimary;
      depth := depth + 1;
      if depth > LIMIT {
        depth := depth - 1;
        Fail(TooDeep);
        return false, 0;
      }
      ghost var start := p;
      SkipTwice(start);
      SkipSpace();
      MatchesSame(start, p, NOT);
      MatchesSame(start, p, COMPLEMENT);
      MatchesSame(start, p, MINUS);
      var op := -1;
      var hit := Accept(NOT);
      if hit { op := 0; }
      if op < 0 {
        hit := Accept(COMPLEMENT);
        if hit { op := 1; }
      }
      if op < 0 {
        hit := Accept(MINUS);
        if hit { op := 2; }
      }
      if op >= 0 {
        ok, out := UnaryOperand();
        depth := depth - 1;
        if ok { out := Unary(op, out); }
        return;
      }
      ok, out := Primary();
      depth := depth - 1;
    }

    method Primary() returns (ok: bool, out: Word)
      requires error == []
      modifies this
      ensures Done(ParsePrimary(old(p), old(depth), env), ok, out, old(depth))
      decreases |p|, 9
    {
      hide ParseExpr; hide ParseNumber; hide ParseName;
      ghost var start := p;
      SkipTwice(p);
      SkipSpace();
      if p == [] {
        Fail(EndsEarly);
        return false, 0;
      }
      if p[0] == '(' {
        p := p[1..];
        ok, out := Expression();
        if !ok { return; }
        ok := Accept(CLOSE);
        if !ok { Fail(ExpectedParen); }
        return;
      }
      if p[0] == '[' {
        p := p[1..];
        ok, out := Expression();
        if !ok { return; }
        ok := Accept(UNBRACKET);
        if !ok {
          Fail(ExpectedBracket);
          return;
        }
        ok, out := Reference(out);
        return;
      }
      if IsDigit(p[0]) || p[0] == '&' {
        ok, out := Number();
      } else {
        ok, out := Identifier();
      }
    }

    /** parse_memory(), after the closing bracket. */
    method Reference(addr: Word) returns (ok: bool, out: Word)
      requires error == []
      modifies this
      ensures Done(Memory(addr, old(p), env), ok, out, old(depth))
    {
      hide ParseNumber; hide Skip;
      var size: Word := 4;
      var sized := Accept(COLON);
      if sized {
        SkipSpace();
        ok, size := Number();
        if !ok { return false, 0; }
        if size != 1 && size != 2 && size != 4 {
          Fail(BadSize);
          return false, 0;
        }
      }
      var m := env.mem(addr, size);
      if m.Unreadable? {
        Fail(NotReadable);
        return false, 0;
      }
      return true, m.v;
    }
  }

  lemma LevelUnfolds(level: nat, s: Text, d: int, env: Env)
    requires level < BINARY
    ensures var r := ParseLevel(level + 1, s, d, env);
            ParseLevel(level, s, d, env) == if r.Err? then r else Loop(level, r.v, r.rest, d, env)
  {
    hide Loop;
  }

  lemma LoopStep(level: nat, v: Word, s: Text, d: int, env: Env)
    requires level < BINARY
    ensures var k := NextOp(level, s);
            if k < 0 then Loop(level, v, s, d, env) == Ok(v, Settle(level, s))
            else Loop(level, v, s, d, env) == Continue(level, k, v, ParseLevel(level + 1, After(s, Tokens(level)[k]), d, env), d, env)
  {
    hide ParseLevel; hide Operate; hide Tokens; hide NextOp; hide Skip;
  }

  /** run(). */
  method Calculate(expr: Text, env: Env) returns (v: Value)
    ensures v == Evaluate(expr, env)
  {
    hide ParseExpr;
    var ps := new Parser(expr, env);
    var ok, out := ps.Expression();
    if !ok { return Bad(ps.error[0]); }
    ps.SkipSpace();
    if ps.p != [] { return Bad(TrailingText); }
    return Val(out);
  }
}
