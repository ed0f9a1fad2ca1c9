/**
 The debugger's expressions by their nonterminals, and what their operators compute.
 */
module DebugGrammar {
  import opened Options
  import opened Truncation
  import opened DebugExpr

  // ---- One nonterminal for each level, loosest first ----

  predicate OrExpr(t: Tree)
    decreases t, 8
  {
    if t.Infix? && t.op.kind == OrOr then OrExpr(t.l) && AndExpr(t.r) else AndExpr(t)
  }

  predicate AndExpr(t: Tree)
    decreases t, 7
  {
    if t.Infix? && t.op.kind == AndAnd then AndExpr(t.l) && EqualityExpr(t.r) else EqualityExpr(t)
  }

  predicate EqualityExpr(t: Tree)
    decreases t, 6
  {
    if t.Infix? && t.op.kind in {Eq, Neq} then EqualityExpr(t.l) && RelationExpr(t.r) else RelationExpr(t)
  }

  predicate RelationExpr(t: Tree)
    decreases t, 5
  {
    if t.Infix? && t.op.kind in {Lt, Gt, Le, Ge} then RelationExpr(t.l) && SumExpr(t.r) else SumExpr(t)
  }

  predicate SumExpr(t: Tree)
    decreases t, 4
  {
    if t.Infix? && t.op.kind in {Plus, Minus} then SumExpr(t.l) && ProductExpr(t.r) else ProductExpr(t)
  }

  predicate ProductExpr(t: Tree)
    decreases t, 3
  {
    if t.Infix? && t.op.kind in {Star, Slash} then ProductExpr(t.l) && PrefixExpr(t.r) else PrefixExpr(t)
  }

  predicate PrefixExpr(t: Tree)
    decreases t, 2
  {
    if t.Prefix? then t.op.kind in {Neg, Pos, Deref} && PrefixExpr(t.x) else PrimaryExpr(t)
  }

  predicate PrimaryExpr(t: Tree)
    decreases t, 1
  {
    match t
    case Operand(a) => a.kind in {Num, Reg}
    case Group(o, x, c) => o.kind == LParen && c.kind == RParen && OrExpr(x)
    case _ => false
  }

  /** The trees that the evaluator accepts are those of this grammar. */
  lemma {:induction false} GrammarIs(t: Tree)
    ensures Derives(t, 1) <==> OrExpr(t)
    ensures Derives(t, 2) <==> AndExpr(t)
    ensures Derives(t, 3) <==> EqualityExpr(t)
    ensures Derives(t, 4) <==> RelationExpr(t)
    ensures Derives(t, 5) <==> SumExpr(t)
    ensures Derives(t, 6) <==> ProductExpr(t)
    ensures Derives(t, 7) <==> PrefixExpr(t)
    ensures Derives(t, 8) <==> PrimaryExpr(t)
  {
    match t {
      case Operand(_) =>
      case Group(_, x, _) => GrammarIs(x);
      case Prefix(_, x) => GrammarIs(x);
      case Infix(l, op, r) => GrammarIs(l); GrammarIs(r);
    }
    assert PrimaryExpr(t) <==> Derives(t, 8);
    assert PrefixExpr(t) <==> Derives(t, 7);
    assert ProductExpr(t) <==> Derives(t, 6);
    assert SumExpr(t) <==> Derives(t, 5);
    assert RelationExpr(t) <==> Derives(t, 4);
    assert EqualityExpr(t) <==> Derives(t, 3);
    assert AndExpr(t) <==> Derives(t, 2);
  }

  /** So tokens have a tree in at most one way, and the parser finds it. */
  lemma {:induction false} ParsesGrammar(ts: seq<Token>, t: Tree)
    requires NoNames(ts)
    ensures Parse(ts) == Some(t) <==> OrExpr(t) && Show(t) == ts
  {
    ParseExact(ts, t);
    GrammarIs(t);
  }

  // ---- What the operators compute ----

  ghost predicate Gives(l: Tree, op: TokenType, r: Tree, m: Machine, v: Option<Word>) {
    forall o: Token :: o.kind == op ==> Value(Infix(l, o, r), m) == v
  }

  /** Sum, difference and product are those of the numbers modulo the word, in this order of the sides. */
  lemma {:induction false} ArithmeticMeans(l: Tree, r: Tree, m: Machine, a: Word, b: Word, op: Token)
    requires Value(l, m) == Some(a) && Value(r, m) == Some(b) && op.kind in {Plus, Minus, Star}
    ensures var v := Value(Infix(l, op, r), m);
            && v.Some?
            && (op.kind == Plus ==> (v.value - b) % W == a)
            && (op.kind == Minus ==> (v.value + b) % W == a)
            && (op.kind == Star ==> exists k: int :: a * b == v.value + k * W)
  {
    if op.kind == Star {
      assert a * b == (a * b) % W + (a * b) / W * W;
    } else {
      WrapsBack(a, b);
    }
  }

  lemma {:induction false} WrapsBack(a: Word, b: Word)
    ensures ((a + b) % W - b) % W == a && ((a - b) % W + b) % W == a
  {
  }

  /** The quotient is that of the signed readings, truncated toward zero, but for the least number by -1; there is none
      by zero. */
  lemma {:induction false} QuotientMeans(l: Tree, r: Tree, m: Machine, a: Word, b: Word, op: Token)
    requires Value(l, m) == Some(a) && Value(r, m) == Some(b) && op.kind == Slash
    ensures var v := Value(Infix(l, op, r), m);
            && (v.None? <==> b == 0)
            && (b != 0 && !(a == 0x8000_0000 && b == 0xffff_ffff) ==>
                  exists rem: int ::
                    && Signed(a) == Signed(v.value) * Signed(b) + rem && Abs(rem) < Abs(Signed(b))
                    && (rem == 0 || (rem < 0 <==> Signed(a) < 0)))
  {
    if b != 0 && !(a == 0x8000_0000 && b == 0xffff_ffff) {
      var q := TruncDiv(Signed(a), Signed(b));
      TruncDivRem(Signed(a), Signed(b));
      QuotientFits(a, b);
      assert Signed(a) == q * Signed(b) + TruncRem(Signed(a), Signed(b));
    }
  }

  lemma {:induction false} QuotientFits(a: Word, b: Word)
    requires b != 0 && !(a == 0x8000_0000 && b == 0xffff_ffff)
    ensures var q := TruncDiv(Signed(a), Signed(b));
            -0x8000_0000 <= q < 0x8000_0000 && Signed(q % 0x1_0000_0000) == q
  {
    var x, y := Abs(Signed(a)), Abs(Signed(b));
    Quotients(x, y);
  }

  lemma {:induction false} Quotients(x: nat, y: nat)
    requires y > 0
    ensures x / y <= x && (y > 1 && x > 0 ==> x / y < x)
  {
    var q := x / y;
    EuclideanSum(x, y);
    assert q * y <= x;
    AtLeastTwice(q, y);
  }

  lemma {:induction false} AtLeastTwice(q: nat, y: nat)
    requires y > 0
    ensures q * y >= if y > 1 then 2 * q else q
  {
    if y > 1 {
      assert q * y == 2 * q + q * (y - 2);
    }
  }

  /** Exactly one of <, == and > gives 1, < gives it when the left side is the smaller number, and the other three are
      their complements. */
  lemma {:induction false} ComparisonMeans(l: Tree, r: Tree, m: Machine, a: Word, b: Word)
    requires Value(l, m) == Some(a) && Value(r, m) == Some(b)
    ensures Gives(l, Lt, r, m, Some(if a < b then 1 else 0)) && Gives(l, Ge, r, m, Some(if a < b then 0 else 1))
    ensures Gives(l, Gt, r, m, Some(if b < a then 1 else 0)) && Gives(l, Le, r, m, Some(if b < a then 0 else 1))
    ensures Gives(l, Eq, r, m, Some(if a == b then 1 else 0)) && Gives(l, Neq, r, m, Some(if a == b then 0 else 1))
  {
    SmallerMeans(l, r, m, a, b);
    GreaterMeans(l, r, m, a, b);
    EqualMeans(l, r, m, a, b);
    hide *;
  }

  lemma {:induction false} SmallerMeans(l: Tree, r: Tree, m: Machine, a: Word, b: Word)
    requires Value(l, m) == Some(a) && Value(r, m) == Some(b)
    ensures Gives(l, Lt, r, m, Some(if a < b then 1 else 0)) && Gives(l, Ge, r, m, Some(if a < b then 0 else 1))
  {
  }

  lemma {:induction false} GreaterMeans(l: Tree, r: Tree, m: Machine, a: Word, b: Word)
    requires Value(l, m) == Some(a) && Value(r, m) == Some(b)
    ensures Gives(l, Gt, r, m, Some(if b < a then 1 else 0)) && Gives(l, Le, r, m, Some(if b < a then 0 else 1))
  {
  }

  lemma {:induction false} EqualMeans(l: Tree, r: Tree, m: Machine, a: Word, b: Word)
    requires Value(l, m) == Some(a) && Value(r, m) == Some(b)
    ensures Gives(l, Eq, r, m, Some(if a == b then 1 else 0)) && Gives(l, Neq, r, m, Some(if a == b then 0 else 1))
  {
  }

  /** Both sides of a connective are evaluated; zero is false. */
  lemma {:induction false} ConnectiveMeans(l: Tree, r: Tree, m: Machine, a: Word, b: Word)
    requires Value(l, m) == Some(a) && Value(r, m) == Some(b)
    ensures Gives(l, AndAnd, r, m, Some(if a == 0 || b == 0 then 0 else 1))
    ensures Gives(l, OrOr, r, m, Some(if a == 0 && b == 0 then 0 else 1))
  {
  }

  lemma {:induction false} SidesNeeded(l: Tree, op: Token, r: Tree, m: Machine)
    ensures Value(Infix(l, op, r), m).Some? ==> Value(l, m).Some? && Value(r, m).Some?
  {
  }

  /** A number stands for what it is read as and a register for its value; a group for what is in it. */
  lemma {:induction false} OperandMeans(t: Token, open: Token, x: Tree, close: Token, m: Machine)
    ensures t.kind == Num ==> Value(Operand(t), m) == Some(ReadNumber(t.text))
    ensures t.kind == Reg ==> Value(Operand(t), m) == m.reg(t.text)
    ensures Value(Group(open, x, close), m) == Value(x, m)
  {
  }

  const DIGITS := "0123456789"
  const LOWER := "abcdef"
  const UPPER := "ABCDEF"

  /** The digits, and no other characters, have the values of their places. */
  lemma {:induction false} DigitsAre(c: char, k: nat)
    ensures k < 10 ==> DigitOf(DIGITS[k]) == k
    ensures k < 6 ==> DigitOf(LOWER[k]) == DigitOf(UPPER[k]) == 10 + k
    ensures DigitOf(c) < 16 ==> c in DIGITS || c in LOWER || c in UPPER
  {
    if DigitOf(c) < 16 {
      DigitAt(c);
    }
  }

  lemma {:induction false} DigitAt(c: char)
    requires DigitOf(c) < 16
    ensures if '0' <= c <= '9' then DIGITS[DigitOf(c)] == c
            else if 'a' <= c <= 'f' then LOWER[DigitOf(c) - 10] == c else UPPER[DigitOf(c) - 10] == c
  {
  }

  /** A number that fits 64 bits is cut to the word, a larger one becomes the largest word. */
  lemma {:induction false} CutIs(v: nat)
    ensures v < W * W ==> (v - Cut(v)) % W == 0
    ensures v >= W * W ==> Cut(v) == W - 1
  {
  }

  lemma {:induction false} PrefixMeans(x: Tree, op: Token, m: Machine, a: Word)
    requires Value(x, m) == Some(a) && op.kind in {Neg, Pos, Deref}
    ensures var v := Value(Prefix(op, x), m);
            && v.Some?
            && (op.kind == Neg ==> (v.value + a) % W == 0)
            && (op.kind == Pos ==> v.value == a)
            && (op.kind == Deref ==> v.value == m.mem(a))
  {
  }

  /** At the start, after an operator and after an opening parenthesis `-`, `+` and `*` are the sign change, the plus
      sign and the reading of memory; after a number, a register or a closing parenthesis they are binary. */
  lemma {:induction false} SignsAre(front: seq<Token>, text: string)
    ensures var unary := front == [] || front[|front| - 1].kind !in {Num, Reg, RParen};
            && Keep(front, Token(Minus, text)) == front + [Token(if unary then Neg else Minus, text)]
            && Keep(front, Token(Plus, text)) == front + [Token(if unary then Pos else Plus, text)]
            && Keep(front, Token(Star, text)) == front + [Token(if unary then Deref else Star, text)]
  {
  }
}
