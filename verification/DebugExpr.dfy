/**
 The debugger's expression evaluator: telling unary from binary operators, splitting a token array at
 its root operator, and evaluating it. The grammar it accepts is stated as trees.
 */
module DebugExpr {
  import opened Options
  import opened Truncation

  datatype TokenType =
    | Space | LParen | RParen
    | Plus | Minus | Star | Slash
    | Lt | Gt | Le | Ge | Eq | Neq | AndAnd | OrOr
    | Num | Reg | Name
    | Pos | Neg | Deref

  datatype Token = Token(kind: TokenType, text: string)

  type Word = x: nat | x < 0x1_0000_0000

  /** What evaluation reads from outside: registers and memory. */
  datatype Machine = Machine(reg: string -> Option<Word>, mem: Word -> Word)

  // ---- Classification of tokens ----

  predicate IsBound(k: TokenType) { k == RParen || k == Num || k == Reg }

  predicate IsOperand(k: TokenType) { k == LParen || k == RParen || k == Num || k == Reg }

  predicate IsUnary(k: TokenType) { k == Neg || k == Pos || k == Deref }

  predicate IsAmbiguous(k: TokenType) { k == Plus || k == Minus || k == Star }

  function AsUnary(k: TokenType): TokenType
    requires IsAmbiguous(k)
  {
    match k
    case Plus => Pos
    case Minus => Neg
    case Star => Deref
  }

  /** The tokens kept from the lexemes `raw`: no spaces, and `+`, `-`, `*` are unary unless the token before
      them ends an operand. */
  function Classify(raw: seq<Token>): seq<Token> {
    if raw == [] then [] else Keep(Classify(raw[..|raw| - 1]), raw[|raw| - 1])
  }

  /** The tokens after reading the lexeme `t`, when those before it are `front`. */
  function Keep(front: seq<Token>, t: Token): seq<Token> {
    if t.kind == Space then front
    else if IsAmbiguous(t.kind) && (front == [] || !IsBound(front[|front| - 1].kind)) then
      front + [t.(kind := AsUnary(t.kind))]
    else front + [t]
  }

  /** A unary operator never follows the end of an operand. */
  predicate Classified(ts: seq<Token>) {
    forall i :: 0 < i < |ts| && IsUnary(ts[i].kind) ==> !IsBound(ts[i - 1].kind)
  }

  /** No rule of the lexer yields a unary operator. */
  predicate Lexemes(raw: seq<Token>) { forall t :: t in raw ==> !IsUnary(t.kind) }

  predicate NoNames(ts: seq<Token>) { forall t :: t in ts ==> t.kind != Name && t.kind != Space }

  lemma {:induction false} ClassifyIsClassified(raw: seq<Token>)
    requires Lexemes(raw)
    ensures Classified(Classify(raw)) && |Classify(raw)| <= |raw|
    ensures (forall t :: t in raw ==> t.kind != Name) ==> NoNames(Classify(raw))
  {
    if raw != [] {
      ClassifyIsClassified(raw[..|raw| - 1]);
    }
  }

  // ---- Depth and the root operator ----

  function Step(k: TokenType): int { if k == LParen then 1 else if k == RParen then -1 else 0 }

  /** The parenthesis depth after the first `j` tokens. */
  function Depth(ts: seq<Token>, j: nat): int
    requires j <= |ts|
  {
    if j == 0 then 0 else Depth(ts, j - 1) + Step(ts[j - 1].kind)
  }

  /** The whole sequence is one parenthesised group. */
  predicate Enclosed(ts: seq<Token>) {
    && |ts| >= 2 && ts[0].kind == LParen && ts[|ts| - 1].kind == RParen
    && Depth(ts, |ts|) == 0
    && forall j :: 0 < j < |ts| ==> Depth(ts, j) > 0
  }

  /** Binding strength of operators, loosest first; 8 for everything else. */
  function Level(k: TokenType): nat {
    match k
    case OrOr => 1
    case AndAnd => 2
    case Eq => 3
    case Neq => 3
    case Lt => 4
    case Gt => 4
    case Ge => 4
    case Le => 4
    case Plus => 5
    case Minus => 5
    case Star => 6
    case Slash => 6
    case Neg => 7
    case Pos => 7
    case Deref => 7
    case _ => 8
  }

  /** The state of the scan for the root operator. */
  datatype Scan = Bad | At(depth: nat, op: int, level: nat)

  function ScanStep(s: Scan, i: nat, k: TokenType): Scan {
    match s
    case Bad => Bad
    case At(d, op, level) =>
      if k == LParen then At(d + 1, op, level)
      else if k == RParen then (if d == 0 then Bad else At(d - 1, op, level))
      else if IsOperand(k) || d > 0 then s
      else if Level(k) < level || (Level(k) == level && !IsUnary(k)) then At(d, i, Level(k))
      else s
  }

  function ScanTo(ts: seq<Token>, j: nat): Scan
    requires j <= |ts|
  {
    if j == 0 then At(0, -1, 100) else ScanStep(ScanTo(ts, j - 1), j - 1, ts[j - 1].kind)
  }

  /** The root operator, or -1. */
  function RootOp(ts: seq<Token>): (r: int)
    ensures r < |ts|
  {
    ScanBounds(ts, |ts|);
    match ScanTo(ts, |ts|)
    case Bad => -1
    case At(d, op, _) => if d != 0 then -1 else op
  }

  lemma {:induction false} ScanBounds(ts: seq<Token>, j: nat)
    requires j <= |ts|
    ensures ScanTo(ts, j).At? ==> ScanTo(ts, j).op < j && ScanTo(ts, j).depth == Depth(ts, j)
  {
    if j > 0 {
      ScanBounds(ts, j - 1);
    }
  }

  /** `check_parentheses`. */
  method CheckParentheses(tokens: array<Token>, p: nat, q: nat) returns (r: bool)
    requires p < q < tokens.Length
    ensures r == Enclosed(tokens[p..q + 1])
  {
    ghost var ts := tokens[p..q + 1];
    if tokens[p].kind == LParen && tokens[q].kind == RParen {
      var par := 0;
      var i := p;
      while i <= q
        invariant p <= i <= q + 1
        invariant par == Depth(ts, i - p)
        invariant forall j :: 0 < j <= i - p ==> Depth(ts, j) > 0
      {
        assert tokens[i] == ts[i - p];
        ghost var before := par;
        if tokens[i].kind == LParen {
          par := par + 1;
        } else if tokens[i].kind == RParen {
          par := par - 1;
        }
        assert par == Depth(ts, i - p + 1);
        if par == 0 {
          return i == q;
        }
        i := i + 1;
      }
    }
    return false;
  }

  /** `find_op`: the scan, on positions of the array. */
  method FindOp(tokens: array<Token>, p: nat, q: nat) returns (r: int)
    requires p <= q < tokens.Length && NoNames(tokens[p..q + 1])
    ensures RootOp(tokens[p..q + 1]) < 0 ==> r == -1
    ensures RootOp(tokens[p..q + 1]) >= 0 ==> r == p + RootOp(tokens[p..q + 1])
  {
    ghost var ts := tokens[p..q + 1];
    var retOp, par, opType := -1, 0, 100;
    var i := p;
    while i <= q
      invariant p <= i <= q + 1 && par >= 0 && opType >= 0
      invariant ScanTo(ts, i - p) == At(par, if retOp < 0 then -1 else retOp - p, opType)
      invariant retOp == -1 || p <= retOp < i
    {
      assert tokens[i] == ts[i - p];
      assert ScanTo(ts, i - p + 1) == ScanStep(ScanTo(ts, i - p), i - p, ts[i - p].kind);
      var k := tokens[i].kind;
      if k == LParen {
        par := par + 1;
      } else if k == RParen {
        if par == 0 {
          ScanStaysBad(ts, i - p + 1, |ts|);
          return -1;
        }
        par := par - 1;
      } else if !IsOperand(k) && par == 0 {
        var nowType := Level(k);
        if nowType < opType || (nowType == opType && !IsUnary(k)) {
          opType := nowType;
          retOp := i;
        }
      }
      i := i + 1;
    }
    if par != 0 {
      return -1;
    }
    return retOp;
  }

  lemma {:induction false} ScanStaysBad(ts: seq<Token>, i: nat, j: nat)
    requires i <= j <= |ts| && ScanTo(ts, i).Bad?
    ensures ScanTo(ts, j).Bad?
  {
    if i < j {
      ScanStaysBad(ts, i, j - 1);
    }
  }

  // ---- The grammar ----

  datatype Tree =
    | Operand(t: Token)
    | Group(open: Token, x: Tree, close: Token)
    | Prefix(op: Token, x: Tree)
    | Infix(l: Tree, op: Token, r: Tree)

  /** The tokens of a tree, in order. */
  function Show(t: Tree): (s: seq<Token>)
    ensures |s| > 0
  {
    match t
    case Operand(a) => [a]
    case Group(o, x, c) => [o] + Show(x) + [c]
    case Prefix(op, x) => [op] + Show(x)
    case Infix(l, op, r) => Show(l) + [op] + Show(r)
  }

  /** The number of tokens of a tree. */
  function Width(t: Tree): nat {
    match t
    case Operand(_) => 1
    case Group(_, x, _) => Width(x) + 2
    case Prefix(_, x) => Width(x) + 1
    case Infix(l, _, r) => Width(l) + 1 + Width(r)
  }

  lemma {:induction false} WidthIsLength(t: Tree)
    ensures Width(t) == |Show(t)|
  {
    match t
    case Operand(_) =>
    case Group(_, x, _) => WidthIsLength(x);
    case Prefix(_, x) => WidthIsLength(x);
    case Infix(l, _, r) => WidthIsLength(l); WidthIsLength(r);
  }

  /** `t` derives from the grammar at level `k`: binary operators of level 1 to 6 group to the left, prefix
      operators bind tighter, and operands are literals, registers and parenthesised expressions. */
  predicate Derives(t: Tree, k: nat) {
    match t
    case Operand(a) => a.kind == Num || a.kind == Reg
    case Group(o, x, c) => o.kind == LParen && c.kind == RParen && Derives(x, 1)
    case Prefix(op, x) => IsUnary(op.kind) && k <= 7 && Derives(x, 7)
    case Infix(l, op, r) =>
      1 <= Level(op.kind) <= 6 && k <= Level(op.kind) && Derives(l, Level(op.kind)) && Derives(r, Level(op.kind) + 1)
  }

  lemma {:induction false} DerivesLower(t: Tree, j: nat, k: nat)
    requires Derives(t, k) && j <= k
    ensures Derives(t, j)
  {
  }

  /** The level of the root operator of a tree; 8 when it has none outside parentheses. */
  function RootLevel(t: Tree): nat {
    match t
    case Prefix(_, _) => 7
    case Infix(_, op, _) => Level(op.kind)
    case _ => 8
  }

  function RootIndex(t: Tree): nat {
    match t
    case Infix(l, _, _) => Width(l)
    case _ => 0
  }

  lemma {:induction false} DerivesAtRoot(t: Tree, k: nat)
    requires Derives(t, 1) && k <= 7
    ensures Derives(t, k) <==> k <= RootLevel(t)
  {
  }

  /** The tokens of `t` stand at position `a` of `ts`. */
  predicate Placed(ts: seq<Token>, a: nat, t: Tree)
    decreases t
  {
    && a + Width(t) <= |ts|
    && match t
       case Operand(x) => ts[a] == x
       case Group(o, x, c) => ts[a] == o && Placed(ts, a + 1, x) && ts[a + 1 + Width(x)] == c
       case Prefix(op, x) => ts[a] == op && Placed(ts, a + 1, x)
       case Infix(l, op, r) => Placed(ts, a, l) && ts[a + Width(l)] == op && Placed(ts, a + Width(l) + 1, r)
  }

  lemma {:induction false} SliceIsPlaced(ts: seq<Token>, a: nat, t: Tree)
    requires a + Width(t) <= |ts| && ts[a..a + Width(t)] == Show(t)
    ensures Placed(ts, a, t)
    decreases t, 1
  {
    match t
    case Operand(x) => OneToken(ts, a, x);
    case Group(o, x, c) => SliceOfGroup(ts, a, o, x, c);
    case Prefix(op, x) => SliceOfPrefix(ts, a, op, x);
    case Infix(l, op, r) => SliceOfInfix(ts, a, l, op, r);
  }

  lemma {:induction false} SliceOfGroup(ts: seq<Token>, a: nat, o: Token, x: Tree, c: Token)
    requires a + Width(x) + 2 <= |ts| && ts[a..a + Width(x) + 2] == Show(Group(o, x, c))
    ensures Placed(ts, a, Group(o, x, c))
    decreases Group(o, x, c), 0
  {
    GroupSlices(ts, a, o, x, [c]);
    OneToken(ts, a + 1 + Width(x), c);
    SliceIsPlaced(ts, a + 1, x);
  }

  lemma {:induction false} SliceOfPrefix(ts: seq<Token>, a: nat, op: Token, x: Tree)
    requires a + Width(x) + 1 <= |ts| && ts[a..a + Width(x) + 1] == Show(Prefix(op, x))
    ensures Placed(ts, a, Prefix(op, x))
    decreases Prefix(op, x), 0
  {
    assert Show(Prefix(op, x)) == [op] + Show(x) + [];
    GroupSlices(ts, a, op, x, []);
    SliceIsPlaced(ts, a + 1, x);
  }

  lemma {:induction false} SliceOfInfix(ts: seq<Token>, a: nat, l: Tree, op: Token, r: Tree)
    requires a + Width(l) + 1 + Width(r) <= |ts|
    requires ts[a..a + Width(l) + 1 + Width(r)] == Show(Infix(l, op, r))
    ensures Placed(ts, a, Infix(l, op, r))
    decreases Infix(l, op, r), 0
  {
    assert Show(Infix(l, op, r)) == Show(l) + [op] + Show(r);
    hide *;
    InfixSlices(ts, a, l, op, r);
    SliceIsPlaced(ts, a, l);
    SliceIsPlaced(ts, a + Width(l) + 1, r);
    PlacedInfix(ts, a, l, op, r);
  }

  lemma {:induction false} PlacedInfix(ts: seq<Token>, a: nat, l: Tree, op: Token, r: Tree)
    requires a + Width(l) + 1 + Width(r) <= |ts| && Placed(ts, a, l) && Placed(ts, a + Width(l) + 1, r)
    requires ts[a + Width(l)] == op
    ensures Placed(ts, a, Infix(l, op, r))
  {
  }

  lemma {:induction false} GroupSlices(ts: seq<Token>, a: nat, o: Token, x: Tree, rest: seq<Token>)
    requires a + 1 + Width(x) + |rest| <= |ts|
    requires ts[a..a + 1 + Width(x) + |rest|] == [o] + Show(x) + rest
    ensures ts[a] == o && ts[a + 1..a + 1 + Width(x)] == Show(x)
    ensures ts[a + 1 + Width(x)..a + 1 + Width(x) + |rest|] == rest
  {
    WidthIsLength(x);
    ThreePieces(ts, a, [o], Show(x), rest, 1 + Width(x));
    OneToken(ts, a, o);
  }

  lemma {:induction false} InfixSlices(ts: seq<Token>, a: nat, l: Tree, op: Token, r: Tree)
    requires a + Width(l) + 1 + Width(r) <= |ts|
    requires ts[a..a + Width(l) + 1 + Width(r)] == Show(l) + [op] + Show(r)
    ensures ts[a..a + Width(l)] == Show(l) && ts[a + Width(l)] == op
    ensures ts[a + Width(l) + 1..a + Width(l) + 1 + Width(r)] == Show(r)
  {
    WidthIsLength(l);
    WidthIsLength(r);
    ThreePieces(ts, a, Show(l), [op], Show(r), Width(l) + 1);
    OneToken(ts, a + Width(l), op);
  }

  lemma {:induction false} ThreePieces(ts: seq<Token>, a: nat, x: seq<Token>, y: seq<Token>, z: seq<Token>, xy: nat)
    requires xy == |x| + |y| && a + xy + |z| <= |ts| && ts[a..a + xy + |z|] == x + y + z
    ensures ts[a..a + |x|] == x && ts[a + |x|..a + xy] == y && ts[a + xy..a + xy + |z|] == z
  {
    SubSlice(ts, a, x, y, z);
  }

  lemma {:induction false} SliceSlice(ts: seq<Token>, a: nat, b: nat, i: nat, j: nat)
    requires a <= b <= |ts| && i <= j <= b - a
    ensures ts[a..b][i..j] == ts[a + i..a + j]
  {
    forall k | 0 <= k < j - i
      ensures ts[a..b][i..j][k] == ts[a + i..a + j][k]
    {
      assert ts[a..b][i + k] == ts[a + i + k];
    }
  }

  /** The parts of a slice made of three pieces. */
  lemma {:induction false} SubSlice(ts: seq<Token>, a: nat, x: seq<Token>, y: seq<Token>, z: seq<Token>)
    requires a + |x| + |y| + |z| <= |ts| && ts[a..a + |x| + |y| + |z|] == x + y + z
    ensures ts[a..a + |x|] == x && ts[a + |x|..a + |x| + |y|] == y
    ensures ts[a + |x| + |y|..a + |x| + |y| + |z|] == z
  {
    var b := a + |x| + |y| + |z|;
    var s := x + y + z;
    SliceSlice(ts, a, b, 0, |x|);
    SliceSlice(ts, a, b, |x|, |x| + |y|);
    SliceSlice(ts, a, b, |x| + |y|, |s|);
    assert x == s[..|x|] && y == s[|x|..|x| + |y|] && z == s[|x| + |y|..];
  }

  lemma {:induction false} OneToken(ts: seq<Token>, i: nat, t: Token)
    requires i < |ts| && ts[i..i + 1] == [t]
    ensures ts[i] == t
  {
    assert ts[i..i + 1][0] == ts[i];
  }

  lemma {:induction false} ShowIsPlaced(t: Tree)
    ensures Placed(Show(t), 0, t)
  {
    WidthIsLength(t);
    assert Show(t)[0..0 + Width(t)] == Show(t);
    SliceIsPlaced(Show(t), 0, t);
  }

  /** What scanning a whole tree does: outside parentheses it finds the root operator, unless a looser or
      equally loose one was seen before. */
  function AfterTree(s: Scan, a: nat, t: Tree): Scan {
    match s
    case Bad => Bad
    case At(d, op, level) =>
      if d == 0 && RootLevel(t) < 8 && (RootLevel(t) < level || (RootLevel(t) == level && t.Infix?))
      then At(0, a + RootIndex(t), RootLevel(t)) else s
  }

  /** Scanning the left operand, the operator and the right operand finds the operator. */
  lemma {:induction false} CombineInfix(s: Scan, a: nat, l: Tree, op: Token, r: Tree)
    requires Derives(Infix(l, op, r), 1)
    ensures AfterTree(ScanStep(AfterTree(s, a, l), a + Width(l), op.kind), a + Width(l) + 1, r)
            == AfterTree(s, a, Infix(l, op, r))
  {
    var k := Level(op.kind);
    DerivesLower(l, 1, k);
    DerivesLower(r, 1, k + 1);
    DerivesAtRoot(l, k);
    DerivesAtRoot(r, k + 1);
  }

  /** The scan of a whole tree, as the step of a structural induction. */
  ghost predicate ScansAs(ts: seq<Token>, a: nat, t: Tree)
    requires a + Width(t) <= |ts|
  {
    ScanTo(ts, a).At? ==> ScanTo(ts, a + Width(t)) == AfterTree(ScanTo(ts, a), a, t)
  }

  lemma {:induction false} ScanGroup(ts: seq<Token>, a: nat, o: Token, x: Tree, c: Token)
    requires Placed(ts, a, Group(o, x, c)) && o.kind == LParen && c.kind == RParen && ScansAs(ts, a + 1, x)
    ensures ScansAs(ts, a, Group(o, x, c))
  {
    var m := a + 1 + Width(x);
    assert ScanTo(ts, a + 1) == ScanStep(ScanTo(ts, a), a, LParen);
    assert ScanTo(ts, m + 1) == ScanStep(ScanTo(ts, m), m, RParen);
  }

  lemma {:induction false} ScanPrefix(ts: seq<Token>, a: nat, op: Token, x: Tree)
    requires Placed(ts, a, Prefix(op, x)) && IsUnary(op.kind) && Derives(x, 7) && ScansAs(ts, a + 1, x)
    ensures ScansAs(ts, a, Prefix(op, x))
  {
    DerivesLower(x, 1, 7);
    DerivesAtRoot(x, 7);
    hide Derives;
    assert ScanTo(ts, a + 1) == ScanStep(ScanTo(ts, a), a, op.kind);
  }

  lemma {:induction false} ScanInfix(ts: seq<Token>, a: nat, l: Tree, op: Token, r: Tree)
    requires Placed(ts, a, Infix(l, op, r)) && Derives(Infix(l, op, r), 1)
    requires ScansAs(ts, a, l) && ScansAs(ts, a + Width(l) + 1, r)
    ensures ScansAs(ts, a, Infix(l, op, r))
  {
    var m := a + Width(l);
    assert ScanTo(ts, m + 1) == ScanStep(ScanTo(ts, m), m, op.kind);
    CombineInfix(ScanTo(ts, a), a, l, op, r);
    hide Derives, ScanTo, ScanStep, AfterTree;
  }

  lemma {:induction false} ScanTree(ts: seq<Token>, a: nat, t: Tree)
    requires Placed(ts, a, t) && Derives(t, 1)
    ensures ScansAs(ts, a, t)
    decreases t
  {
    match t
    case Operand(x) =>
      assert ScanTo(ts, a + 1) == ScanStep(ScanTo(ts, a), a, x.kind);
    case Group(o, x, c) =>
      ScanTree(ts, a + 1, x);
      ScanGroup(ts, a, o, x, c);
    case Prefix(op, x) =>
      DerivesLower(x, 1, 7);
      ScanTree(ts, a + 1, x);
      ScanPrefix(ts, a, op, x);
    case Infix(l, op, r) =>
      DerivesLower(l, 1, Level(op.kind));
      DerivesLower(r, 1, Level(op.kind) + 1);
      ScanTree(ts, a, l);
      ScanTree(ts, a + Width(l) + 1, r);
      ScanInfix(ts, a, l, op, r);
  }

  /** Along a tree the depth never falls below its start, and ends there. */
  ghost predicate Nested(ts: seq<Token>, a: nat, b: nat)
    requires a <= b <= |ts|
  {
    Depth(ts, b) == Depth(ts, a) && forall j :: a <= j <= b ==> Depth(ts, j) >= Depth(ts, a)
  }

  lemma {:induction false} DepthOfTree(ts: seq<Token>, a: nat, t: Tree)
    requires Placed(ts, a, t) && Derives(t, 1)
    ensures Nested(ts, a, a + Width(t))
    decreases t, 1
  {
    hide Depth, Nested, Level;
    match t
    case Operand(x) => NestedOperand(ts, a);
    case Group(o, x, c) =>
      DepthOfTree(ts, a + 1, x);
      NestedGroup(ts, a, a + 1 + Width(x));
    case Prefix(op, x) =>
      DerivesLower(x, 1, 7);
      DepthOfTree(ts, a + 1, x);
      NestedPrefix(ts, a, a + 1 + Width(x));
    case Infix(l, op, r) => DepthOfInfix(ts, a, l, op, r);
  }

  lemma {:induction false} DepthOfInfix(ts: seq<Token>, a: nat, l: Tree, op: Token, r: Tree)
    requires Placed(ts, a, Infix(l, op, r)) && Derives(Infix(l, op, r), 1)
    ensures Nested(ts, a, a + Width(l) + 1 + Width(r))
    decreases Infix(l, op, r), 0
  {
    DerivesLower(l, 1, Level(op.kind));
    DerivesLower(r, 1, Level(op.kind) + 1);
    OperatorIsNoParenthesis(op.kind);
    assert Placed(ts, a, l) && Placed(ts, a + Width(l) + 1, r) && ts[a + Width(l)] == op;
    hide *;
    DepthOfTree(ts, a, l);
    DepthOfTree(ts, a + Width(l) + 1, r);
    NestedSequence(ts, a, a + Width(l), a + Width(l) + 1 + Width(r));
  }

  lemma {:induction false} NestedOperand(ts: seq<Token>, a: nat)
    requires a < |ts| && (ts[a].kind == Num || ts[a].kind == Reg)
    ensures Nested(ts, a, a + 1)
  {
    SameDepth(ts, a);
  }

  lemma {:induction false} OperatorIsNoParenthesis(k: TokenType)
    ensures Level(k) <= 7 ==> k != LParen && k != RParen
  {
  }

  lemma {:induction false} NestedPrefix(ts: seq<Token>, a: nat, b: nat)
    requires a < b <= |ts| && IsUnary(ts[a].kind) && Nested(ts, a + 1, b)
    ensures Nested(ts, a, b)
  {
    SameDepth(ts, a);
  }

  lemma {:induction false} NestedSequence(ts: seq<Token>, a: nat, m: nat, b: nat)
    requires a <= m < b <= |ts| && Nested(ts, a, m) && Nested(ts, m + 1, b)
    requires ts[m].kind != LParen && ts[m].kind != RParen
    ensures Nested(ts, a, b)
  {
    SameDepth(ts, m);
  }

  lemma {:induction false} SameDepth(ts: seq<Token>, i: nat)
    requires i < |ts| && ts[i].kind != LParen && ts[i].kind != RParen
    ensures Depth(ts, i + 1) == Depth(ts, i)
  {
  }

  lemma {:induction false} NestedGroup(ts: seq<Token>, a: nat, m: nat)
    requires a < m < |ts| && ts[a].kind == LParen && ts[m].kind == RParen && Nested(ts, a + 1, m)
    ensures Nested(ts, a, m + 1) && forall j :: a < j <= m ==> Depth(ts, j) > Depth(ts, a)
  {
    assert Depth(ts, a + 1) == Depth(ts, a) + 1;
    assert Depth(ts, m + 1) == Depth(ts, m) - 1;
  }

  /** Only a parenthesised tree is enclosed. */
  lemma {:induction false} EnclosedTree(t: Tree)
    requires Derives(t, 1)
    ensures Enclosed(Show(t)) <==> t.Group?
  {
    WidthIsLength(t);
    ShowIsPlaced(t);
    hide Depth, Nested, Enclosed, Placed, Show;
    match t
    case Operand(_) => ShortIsOpen(Show(t));
    case Group(o, x, c) => GroupIsEnclosed(Show(t), o, x, c);
    case Prefix(op, x) => PrefixIsOpen(Show(t), op, x);
    case Infix(l, op, r) => InfixIsOpen(Show(t), l, op, r);
  }

  lemma {:induction false} ShortIsOpen(ts: seq<Token>)
    requires |ts| == 1
    ensures !Enclosed(ts)
  {
  }

  lemma {:induction false} GroupIsEnclosed(ts: seq<Token>, o: Token, x: Tree, c: Token)
    requires Derives(Group(o, x, c), 1) && Placed(ts, 0, Group(o, x, c)) && |ts| == Width(x) + 2
    ensures Enclosed(ts)
  {
    DepthOfTree(ts, 1, x);
    NestedGroup(ts, 0, 1 + Width(x));
  }

  lemma {:induction false} PrefixIsOpen(ts: seq<Token>, op: Token, x: Tree)
    requires Derives(Prefix(op, x), 1) && Placed(ts, 0, Prefix(op, x))
    ensures !Enclosed(ts)
  {
  }

  lemma {:induction false} InfixIsOpen(ts: seq<Token>, l: Tree, op: Token, r: Tree)
    requires Derives(Infix(l, op, r), 1) && Placed(ts, 0, Infix(l, op, r)) && |ts| == Width(l) + 1 + Width(r)
    ensures !Enclosed(ts)
  {
    DerivesLower(l, 1, Level(op.kind));
    DepthOfTree(ts, 0, l);
    hide Derives, Placed;
    assert Depth(ts, Width(l)) == 0;
  }

  lemma {:induction false} RootOfTree(t: Tree)
    requires Derives(t, 1)
    ensures RootOp(Show(t)) == if RootLevel(t) < 8 then RootIndex(t) else -1
  {
    WidthIsLength(t);
    ShowIsPlaced(t);
    assert ScanTo(Show(t), 0) == At(0, -1, 100);
    ScanTree(Show(t), 0, t);
  }

  // ---- The parser ----

  /** The tree found by splitting at root operators. */
  function Parse(ts: seq<Token>): Option<Tree>
    decreases |ts|
  {
    if ts == [] then None
    else if |ts| == 1 then
      if ts[0].kind == Num || ts[0].kind == Reg then Some(Operand(ts[0])) else None
    else if Enclosed(ts) then
      match Parse(ts[1..|ts| - 1])
      case None => None
      case Some(x) => Some(Group(ts[0], x, ts[|ts| - 1]))
    else
      var op := RootOp(ts);
      if op < 0 then None
      else if IsUnary(ts[op].kind) then
        if op > 0 then None else
        match Parse(ts[1..])
        case None => None
        case Some(x) => Some(Prefix(ts[0], x))
      else
        match (Parse(ts[..op]), Parse(ts[op + 1..]))
        case (Some(l), Some(r)) => Some(Infix(l, ts[op], r))
        case (_, _) => None
  }

  /** Every tree of the grammar parses back from its tokens. */
  lemma {:induction false} ParseShow(t: Tree)
    requires Derives(t, 1)
    ensures Parse(Show(t)) == Some(t)
    decreases t, 1
  {
    EnclosedTree(t);
    RootOfTree(t);
    match t
    case Operand(_) =>
    case Group(o, x, c) =>
      ParseShow(x);
      assert Show(t)[1..|Show(t)| - 1] == Show(x);
    case Prefix(op, x) =>
      DerivesLower(x, 1, 7);
      ParseShow(x);
      assert Show(t)[1..] == Show(x);
    case Infix(l, op, r) => ParseShowInfix(l, op, r);
  }

  lemma {:induction false} ParseShowInfix(l: Tree, op: Token, r: Tree)
    requires var t := Infix(l, op, r);
             Derives(t, 1) && !Enclosed(Show(t)) && RootOp(Show(t)) == Width(l)
    ensures Parse(Show(Infix(l, op, r))) == Some(Infix(l, op, r))
    decreases Infix(l, op, r), 0
  {
    hide Parse;
    var ts := Show(Infix(l, op, r));
    WidthIsLength(l);
    DerivesLower(l, 1, Level(op.kind));
    DerivesLower(r, 1, Level(op.kind) + 1);
    ParseShow(l);
    ParseShow(r);
    assert ts[..|Show(l)|] == Show(l) && ts[|Show(l)| + 1..] == Show(r) && ts[|Show(l)|] == op;
    LevelsPositive(op.kind);
    InfixParses(ts, Width(l), l, r);
  }

  lemma {:induction false} InfixParses(ts: seq<Token>, op: nat, l: Tree, r: Tree)
    requires op < |ts| && |ts| > 1 && !Enclosed(ts) && RootOp(ts) == op && !IsUnary(ts[op].kind)
    requires Parse(ts[..op]) == Some(l) && Parse(ts[op + 1..]) == Some(r)
    ensures Parse(ts) == Some(Infix(l, ts[op], r))
  {
  }

  lemma {:induction false} RootIsOperator(ts: seq<Token>, j: nat)
    requires j <= |ts| && NoNames(ts)
    ensures ScanTo(ts, j).At? ==>
              var s := ScanTo(ts, j);
              (s.op == -1 && s.level == 100) || (0 <= s.op < j && s.level == Level(ts[s.op].kind) <= 7)
  {
    if j > 0 {
      RootIsOperator(ts, j - 1);
    }
  }

  /** What the parser returns derives from the grammar and has the given tokens. */
  lemma {:induction false} ParseSound(ts: seq<Token>)
    requires Parse(ts).Some? && NoNames(ts)
    ensures Show(Parse(ts).value) == ts && Derives(Parse(ts).value, 1)
    decreases |ts|, 1
  {
    if |ts| > 1 {
      if Enclosed(ts) {
        ParseGroupSound(ts);
      } else {
        assert RootOp(ts) >= 0;
        RootIsOperator(ts, |ts|);
        LevelsPositive(ts[RootOp(ts)].kind);
        if IsUnary(ts[RootOp(ts)].kind) {
          ParsePrefixSound(ts);
        } else {
          ParseInfixSound(ts, RootOp(ts));
        }
      }
    }
  }

  lemma {:induction false} ParseGroupSound(ts: seq<Token>)
    requires Enclosed(ts) && NoNames(ts) && Parse(ts).Some?
    ensures Show(Parse(ts).value) == ts && Derives(Parse(ts).value, 1)
    decreases |ts|, 0
  {
    GroupCase(ts);
    ParseSound(ts[1..|ts| - 1]);
    JoinGroup(ts, Parse(ts[1..|ts| - 1]).value);
  }

  lemma {:induction false} GroupCase(ts: seq<Token>)
    requires Enclosed(ts) && Parse(ts).Some?
    ensures Parse(ts[1..|ts| - 1]).Some?
    ensures Parse(ts).value == Group(ts[0], Parse(ts[1..|ts| - 1]).value, ts[|ts| - 1])
  {
  }

  lemma {:induction false} JoinGroup(ts: seq<Token>, x: Tree)
    requires Enclosed(ts) && Derives(x, 1) && ts[1..|ts| - 1] == Show(x)
    ensures Show(Group(ts[0], x, ts[|ts| - 1])) == ts && Derives(Group(ts[0], x, ts[|ts| - 1]), 1)
  {
    assert ts == [ts[0]] + ts[1..|ts| - 1] + [ts[|ts| - 1]];
  }

  lemma {:induction false} ParsePrefixSound(ts: seq<Token>)
    requires |ts| > 1 && NoNames(ts) && 0 <= RootOp(ts) && IsUnary(ts[RootOp(ts)].kind)
    requires !Enclosed(ts) && Parse(ts).Some?
    ensures Show(Parse(ts).value) == ts && Derives(Parse(ts).value, 1)
    decreases |ts|, 0
  {
    var x := Parse(ts[1..]);
    assert RootOp(ts) == 0 && Parse(ts) == Some(Prefix(ts[0], x.value));
    ParseSound(ts[1..]);
    assert ts == [ts[0]] + ts[1..];
    PrefixRoot(ts, x.value);
  }

  lemma {:induction false} InfixCase(ts: seq<Token>, op: nat)
    requires |ts| > 1 && op == RootOp(ts) && !IsUnary(ts[op].kind)
    requires !Enclosed(ts) && Parse(ts).Some?
    ensures Parse(ts[..op]).Some? && Parse(ts[op + 1..]).Some?
    ensures Parse(ts).value == Infix(Parse(ts[..op]).value, ts[op], Parse(ts[op + 1..]).value)
  {
  }

  lemma {:induction false} ParseInfixSound(ts: seq<Token>, op: nat)
    requires |ts| > 1 && NoNames(ts) && op == RootOp(ts) && 1 <= Level(ts[op].kind) <= 6
    requires !Enclosed(ts) && Parse(ts).Some?
    ensures Show(Parse(ts).value) == ts && Derives(Parse(ts).value, 1)
    decreases |ts|, 0
  {
    LevelsPositive(ts[op].kind);
    InfixCase(ts, op);
    ParseSound(ts[..op]);
    ParseSound(ts[op + 1..]);
    JoinInfix(ts, op, Parse(ts[..op]).value, Parse(ts[op + 1..]).value);
  }

  lemma {:induction false} JoinInfix(ts: seq<Token>, op: nat, l: Tree, r: Tree)
    requires op < |ts| && op == RootOp(ts) && 1 <= Level(ts[op].kind) <= 6
    requires Derives(l, 1) && Derives(r, 1) && ts[..op] == Show(l) && ts[op + 1..] == Show(r)
    ensures Show(Infix(l, ts[op], r)) == ts && Derives(Infix(l, ts[op], r), 1)
  {
    assert ts == ts[..op] + [ts[op]] + ts[op + 1..];
    InfixRoot(ts, l, r, op);
  }

  lemma {:induction false} LevelsPositive(k: TokenType)
    ensures 1 <= Level(k) <= 8 && (Level(k) == 7 <==> IsUnary(k))
    ensures Level(k) == 8 <==> IsOperand(k) || k == Name || k == Space
  {
  }

  lemma {:induction false} PrefixRoot(ts: seq<Token>, x: Tree)
    requires |ts| > 1 && IsUnary(ts[0].kind) && RootOp(ts) == 0
    requires Derives(x, 1) && ts[1..] == Show(x)
    ensures Derives(x, 7)
  {
    PieceIsPlaced(ts, 1, |ts|, x);
    FirstIsUnary(ts);
    ScanTree(ts, 1, x);
    RootIsLoose(1, x, ScanTo(ts, |ts|));
    DerivesAtRoot(x, 7);
  }

  lemma {:induction false} FirstIsUnary(ts: seq<Token>)
    requires |ts| > 0 && IsUnary(ts[0].kind)
    ensures ScanTo(ts, 1) == At(0, 0, 7)
  {
    assert ScanTo(ts, 0) == At(0, -1, 100);
    assert ScanTo(ts, 1) == ScanStep(ScanTo(ts, 0), 0, ts[0].kind);
  }

  lemma {:induction false} RootIsLoose(a: nat, x: Tree, s: Scan)
    requires s == AfterTree(At(0, 0, 7), a, x) && s.At? && s.op == 0 && a > 0
    ensures RootLevel(x) >= 7
  {
  }

  lemma {:induction false} InfixRoot(ts: seq<Token>, l: Tree, r: Tree, op: nat)
    requires op < |ts| && RootOp(ts) == op && 1 <= Level(ts[op].kind) <= 6
    requires Derives(l, 1) && Derives(r, 1) && ts[..op] == Show(l) && ts[op + 1..] == Show(r)
    ensures Derives(l, Level(ts[op].kind)) && Derives(r, Level(ts[op].kind) + 1)
  {
    PieceIsPlaced(ts, 0, op, l);
    PieceIsPlaced(ts, op + 1, |ts|, r);
    PlacedRoots(ts, l, r, op);
  }

  lemma {:induction false} PieceIsPlaced(ts: seq<Token>, a: nat, b: nat, t: Tree)
    requires a <= b <= |ts| && ts[a..b] == Show(t)
    ensures Placed(ts, a, t) && b == a + Width(t)
  {
    WidthIsLength(t);
    SliceIsPlaced(ts, a, t);
  }

  lemma {:induction false} PlacedRoots(ts: seq<Token>, l: Tree, r: Tree, op: nat)
    requires op < |ts| && RootOp(ts) == op && 1 <= Level(ts[op].kind) <= 6
    requires Derives(l, 1) && Derives(r, 1) && Placed(ts, 0, l) && op == Width(l)
    requires Placed(ts, op + 1, r) && |ts| == op + 1 + Width(r)
    ensures Derives(l, Level(ts[op].kind)) && Derives(r, Level(ts[op].kind) + 1)
  {
    ScanTree(ts, 0, l);
    ScanTree(ts, op + 1, r);
    RootAtEnd(ts, op);
    hide Placed, Derives, ScanTo, ScanStep, RootOp, AfterTree;
    InfixStates(ScanTo(ts, op), ScanTo(ts, op + 1), op, ts[op].kind, l, r);
    DerivesAtRoot(l, Level(ts[op].kind));
    DerivesAtRoot(r, Level(ts[op].kind) + 1);
  }

  lemma {:induction false} RootAtEnd(ts: seq<Token>, op: nat)
    requires op < |ts| && RootOp(ts) == op
    ensures ScanTo(ts, |ts|).At? && ScanTo(ts, |ts|).op == op
    ensures ScanTo(ts, op + 1) == ScanStep(ScanTo(ts, op), op, ts[op].kind) && ScanTo(ts, 0) == At(0, -1, 100)
    ensures ScanTo(ts, op).At? && ScanTo(ts, op + 1).At?
  {
    ScanDefined(ts, op, |ts|);
    ScanDefined(ts, op + 1, |ts|);
  }

  /** If the scan ends on the token between two trees, neither has a root that should have won. */
  lemma {:induction false} InfixStates(s: Scan, s': Scan, op: nat, k: TokenType, l: Tree, r: Tree)
    requires s == AfterTree(At(0, -1, 100), 0, l) && op == Width(l) && 1 <= Level(k) <= 6
    requires s' == ScanStep(s, op, k) && s'.At?
    requires AfterTree(s', op + 1, r).At? && AfterTree(s', op + 1, r).op == op
    requires Derives(l, 1) && Derives(r, 1)
    ensures Level(k) <= RootLevel(l) && Level(k) + 1 <= RootLevel(r)
  {
    RootIsInside(l);
    LevelsPositive(k);
  }

  lemma {:induction false} RootIsInside(t: Tree)
    requires Derives(t, 1)
    ensures RootIndex(t) < Width(t) && (RootLevel(t) < 7 ==> t.Infix?)
  {
  }

  /** The parser accepts exactly the grammar, and each sequence of tokens has one tree at most. */
  lemma {:induction false} ParseExact(ts: seq<Token>, t: Tree)
    requires NoNames(ts)
    ensures Parse(ts) == Some(t) <==> Derives(t, 1) && Show(t) == ts
  {
    if Parse(ts) == Some(t) {
      ParseSound(ts);
    } else if Derives(t, 1) && Show(t) == ts {
      ParseShow(t);
    }
  }

  // ---- Literals ----

  function DigitOf(c: char): nat {
    if '0' <= c <= '9' then c as int - '0' as int
    else if 'a' <= c <= 'f' then c as int - 'a' as int + 10
    else if 'A' <= c <= 'F' then c as int - 'A' as int + 10
    else 16
  }

  predicate AllDigits(s: string, base: nat) { forall i :: 0 <= i < |s| ==> DigitOf(s[i]) < base }

  /** The number that digits of this base denote. */
  function NumberOf(s: string, base: nat): nat {
    if s == [] then 0 else NumberOf(s[..|s| - 1], base) * base + DigitOf(s[|s| - 1])
  }

  /** Reading digits from the left up to the first character that is none. */
  function ReadDigits(s: string, base: nat, acc: nat): nat {
    if s == [] || DigitOf(s[0]) >= base then acc else ReadDigits(s[1..], base, acc * base + DigitOf(s[0]))
  }

  /** `strtoul` stops at the largest 64-bit number, and a word keeps the lower half. */
  function Cut(v: nat): Word { (if v < 0x1_0000_0000_0000_0000 then v else 0xffff_ffff_ffff_ffff) % 0x1_0000_0000 }

  /** The literal case of `eval_num_reg`: hexadecimal after `0x`, otherwise decimal. */
  function ReadNumber(text: string): Word {
    if |text| >= 2 && text[..2] == "0x" then Cut(ReadDigits(text[2..], 16, 0)) else Cut(ReadDigits(text, 10, 0))
  }

  predicate HasUpperPrefix(text: string) { |text| > 2 && text[..2] == "0X" }

  predicate HasPrefix(text: string) { |text| > 2 && (text[..2] == "0x" || text[..2] == "0X") }

  /** What the lexer takes for a number. */
  predicate IsLiteral(text: string) {
    if HasPrefix(text) then AllDigits(text[2..], 16) else text != [] && AllDigits(text, 10)
  }

  /** The number that a literal denotes. */
  function Denotes(text: string): nat
    requires IsLiteral(text)
  {
    if HasPrefix(text) then NumberOf(text[2..], 16) else NumberOf(text, 10)
  }

  lemma {:induction false} NumberAppends(d: string, s: string, base: nat)
    requires s != []
    ensures NumberOf(d + s, base) == NumberOf(d + s[..|s| - 1], base) * base + DigitOf(s[|s| - 1])
  {
    assert (d + s)[..|d + s| - 1] == d + s[..|s| - 1];
  }

  lemma {:induction false} ReadDigitsIs(d: string, s: string, base: nat)
    requires AllDigits(s, base)
    ensures ReadDigits(s, base, NumberOf(d, base)) == NumberOf(d + s, base)
    decreases s
  {
    if s == [] {
      assert d + s == d;
    } else {
      NumberAppends(d, [s[0]], base);
      assert d + [s[0]][..0] == d;
      ReadDigitsIs(d + [s[0]], s[1..], base);
      assert d + [s[0]] + s[1..] == d + s;
    }
  }

  lemma {:induction false} ReadsAll(s: string, base: nat)
    requires AllDigits(s, base)
    ensures ReadDigits(s, base, 0) == NumberOf(s, base)
  {
    var none: string := [];
    ReadDigitsIs(none, s, base);
    assert none + s == s;
  }

  /** A literal is read as it denotes, as far as that fits a word, but for the prefix `0X`, after which it is read
      as 0. */
  lemma {:induction false} ReadNumberIs(text: string)
    requires IsLiteral(text)
    ensures ReadNumber(text) == if HasUpperPrefix(text) then 0 else Cut(Denotes(text))
  {
    if HasUpperPrefix(text) {
      assert text[0] == '0' && text[1] == 'X';
      assert ReadDigits(text, 10, 0) == ReadDigits(text[1..], 10, 0) == 0;
    } else if HasPrefix(text) {
      ReadsAll(text[2..], 16);
    } else {
      assert |text| >= 2 ==> DigitOf(text[1]) < 10;
      ReadsAll(text, 10);
    }
  }

  /** So the value read is the number denoted if and only if that fits a word and is 0 after `0X`. */
  lemma {:induction false} ReadNumberExactly(text: string)
    requires IsLiteral(text)
    ensures ReadNumber(text) == Denotes(text) <==>
            Denotes(text) < 0x1_0000_0000 && (HasUpperPrefix(text) ==> Denotes(text) == 0)
  {
    ReadNumberIs(text);
  }

  /** `0X1F` is read as 0. */
  lemma {:induction false} UpperPrefixIsMisread()
    ensures IsLiteral("0X1F") && Denotes("0X1F") == 31 && ReadNumber("0X1F") == 0
  {
    var d := "1F";
    assert "0X1F"[..2] == "0X" && "0X1F"[2..] == d;
    assert d[..1] == "1" && d[..1][..0] == [];
    assert NumberOf("1", 16) == 1;
    ReadNumberIs("0X1F");
  }

  // ---- Evaluation ----

  const W: int := 0x1_0000_0000

  function Signed(x: Word): int { if x < 0x8000_0000 then x else x - W }

  function Flag(b: bool): Word { if b then 1 else 0 }

  /** `calc1`. */
  function Calc1(op: TokenType, v: Word, m: Machine): Option<Word> {
    match op
    case Neg => Some((0 - v) % 0x1_0000_0000)
    case Pos => Some(v)
    case Deref => Some(m.mem(v))
    case _ => None
  }

  /** `calc2`: arithmetic wraps, division is signed and fails on zero, comparison is unsigned. */
  function Calc2(a: Word, op: TokenType, b: Word): Option<Word> {
    match op
    case Plus => Some((a + b) % 0x1_0000_0000)
    case Minus => Some((a - b) % 0x1_0000_0000)
    case Star => Some((a * b) % 0x1_0000_0000)
    case Slash => if b == 0 then None else Some(TruncDiv(Signed(a), Signed(b)) % 0x1_0000_0000)
    case AndAnd => Some(Flag(a != 0 && b != 0))
    case OrOr => Some(Flag(a != 0 || b != 0))
    case Eq => Some(Flag(a == b))
    case Neq => Some(Flag(a != b))
    case Gt => Some(Flag(a > b))
    case Lt => Some(Flag(a < b))
    case Ge => Some(Flag(a >= b))
    case Le => Some(Flag(a <= b))
    case _ => None
  }

  /** `eval_num_reg`. */
  function Atom(t: Token, m: Machine): Option<Word> {
    match t.kind
    case Num => Some(ReadNumber(t.text))
    case Reg => m.reg(t.text)
    case _ => None
  }

  /** The value of a tree, if all its registers resolve and no divisor is zero. */
  function Value(t: Tree, m: Machine): Option<Word> {
    match t
    case Operand(a) => Atom(a, m)
    case Group(_, x, _) => Value(x, m)
    case Prefix(op, x) =>
      (match Value(x, m)
       case None => None
       case Some(v) => Calc1(op.kind, v, m))
    case Infix(l, op, r) =>
      match (Value(l, m), Value(r, m))
      case (Some(a), Some(b)) => Calc2(a, op.kind, b)
      case (_, _) => None
  }

  function ParsedValue(ts: seq<Token>, m: Machine): Option<Word> {
    match Parse(ts)
    case None => None
    case Some(t) => Value(t, m)
  }

  ghost predicate OperandAt(ts: seq<Token>, i: nat)
    requires i < |ts|
  {
    Depth(ts, i) == 0 ==> IsOperand(ts[i].kind)
  }

  /** Outside parentheses the first `b` tokens are operands only. */
  ghost predicate OperandsBefore(ts: seq<Token>, b: int)
    requires b <= |ts|
  {
    forall i :: 0 <= i < b ==> OperandAt(ts, i)
  }

  /** While the scan has chosen a unary operator or none, it has met no other operator outside
      parentheses before it. */
  ghost predicate UnaryScan(ts: seq<Token>, j: nat, op: int)
    requires op < j <= |ts|
  {
    && (op < 0 ==> OperandsBefore(ts, j))
    && (op >= 0 && IsUnary(ts[op].kind) ==> Depth(ts, op) == 0 && OperandsBefore(ts, op))
  }

  lemma {:induction false} ScanUnary(ts: seq<Token>, j: nat)
    requires j <= |ts| && NoNames(ts) && ScanTo(ts, j).At?
    ensures ScanTo(ts, j).op < j && UnaryScan(ts, j, ScanTo(ts, j).op)
  {
    if j > 0 {
      ScanBounds(ts, j - 1);
      RootIsOperator(ts, j - 1);
      ScanUnary(ts, j - 1);
      ScanUnaryStep(ts, j - 1, ScanTo(ts, j - 1));
    }
  }

  lemma {:induction false} ScanUnaryStep(ts: seq<Token>, i: nat, s: Scan)
    requires i < |ts| && NoNames(ts) && s.At? && s.op < i && s.depth == Depth(ts, i) && UnaryScan(ts, i, s.op)
    requires s.op < 0 || s.level <= 7
    requires s.op >= 0 || s.level == 100
    ensures var s' := ScanStep(s, i, ts[i].kind);
            s'.At? ==> s'.op <= i && UnaryScan(ts, i + 1, s'.op)
  {
    var k := ts[i].kind;
    if ScanStep(s, i, k).At? {
      StepCases(s, i, k);
      if ScanStep(s, i, k).op == i {
        assert UnaryScan(ts, i + 1, i);
      } else {
        UnaryScanExtends(ts, i, s.op);
      }
    }
  }

  lemma {:induction false} UnaryScanExtends(ts: seq<Token>, i: nat, op: int)
    requires op < i < |ts| && UnaryScan(ts, i, op)
    requires op < 0 ==> OperandAt(ts, i)
    ensures UnaryScan(ts, i + 1, op)
  {
  }

  /** A step keeps the operator chosen so far, or chooses the current token; a unary one only as the first. */
  lemma {:induction false} StepCases(s: Scan, i: nat, k: TokenType)
    requires s.At? && ScanStep(s, i, k).At? && s.op < i && k != Name && k != Space
    requires s.op < 0 || s.level <= 7
    requires s.op >= 0 || s.level == 100
    ensures var s' := ScanStep(s, i, k);
            && (s'.op == i ==> s.depth == 0 && (IsUnary(k) ==> s.op < 0))
            && (s'.op != i ==> s'.op == s.op && (s.depth == 0 && s.op < 0 ==> IsOperand(k)))
  {
    LevelsPositive(k);
  }

  /** The scan is defined wherever a later one is. */
  lemma {:induction false} ScanDefined(ts: seq<Token>, i: nat, j: nat)
    requires i <= j <= |ts| && ScanTo(ts, j).At?
    ensures ScanTo(ts, i).At?
  {
    if i < j {
      ScanDefined(ts, i, j - 1);
    }
  }

  /** A unary root operator stands first. */
  lemma {:induction false} UnaryRootIsFirst(ts: seq<Token>)
    requires Classified(ts) && NoNames(ts) && RootOp(ts) >= 0 && IsUnary(ts[RootOp(ts)].kind)
    ensures RootOp(ts) == 0
  {
    var k := RootOp(ts);
    assert ScanTo(ts, |ts|).At? && ScanTo(ts, |ts|).op == k;
    ScanUnary(ts, |ts|);
    if k > 0 {
      ScanDefined(ts, k - 1, |ts|);
      ScanBounds(ts, k - 1);
      NoBoundBefore(ts, k);
    }
  }

  lemma {:induction false} NoBoundBefore(ts: seq<Token>, k: nat)
    requires 0 < k < |ts| && Depth(ts, k) == 0 && Depth(ts, k - 1) >= 0 && OperandsBefore(ts, k)
    ensures IsBound(ts[k - 1].kind)
  {
    assert Depth(ts, k) == Depth(ts, k - 1) + Step(ts[k - 1].kind);
    assert OperandAt(ts, k - 1);
  }

  lemma {:induction false} SliceKeeps(ts: seq<Token>, i: nat, j: nat)
    requires Classified(ts) && NoNames(ts) && i <= j <= |ts|
    ensures Classified(ts[i..j]) && NoNames(ts[i..j])
  {
  }

  /** The values of a sequence without a root operator. */
  lemma {:induction false} ValueCases(ts: seq<Token>, m: Machine)
    ensures ts == [] ==> ParsedValue(ts, m).None?
    ensures |ts| == 1 ==> ParsedValue(ts, m) == Atom(ts[0], m)
    ensures |ts| > 1 && Enclosed(ts) ==> ParsedValue(ts, m) == ParsedValue(ts[1..|ts| - 1], m)
    ensures |ts| > 1 && !Enclosed(ts) && RootOp(ts) < 0 ==> ParsedValue(ts, m).None?
  {
  }

  /** `eval` on tokens p to q: it passes exactly when they parse to a tree with a value, and returns it. */
  method Eval(tokens: array<Token>, p: nat, q: int, m: Machine) returns (v: Word, pass: bool)
    requires p - 1 <= q < tokens.Length
    requires Classified(tokens[p..q + 1]) && NoNames(tokens[p..q + 1])
    ensures Result(v, pass) == ParsedValue(tokens[p..q + 1], m)
    decreases q - p + 1
  {
    ghost var ts := tokens[p..q + 1];
    ValueCases(ts, m);
    if p > q {
      return 0, false;
    }
    if p == q {
      assert ts == [tokens[p]];
      v, pass := Unpack(Atom(tokens[p], m));
      return;
    }
    var enclosed := CheckParentheses(tokens, p, q);
    if enclosed {
      assert ts[1..|ts| - 1] == tokens[p + 1..q];
      SliceKeeps(ts, 1, |ts| - 1);
      v, pass := Eval(tokens, p + 1, q - 1, m);
      return;
    }
    var op := FindOp(tokens, p, q);
    if op < 0 {
      return 0, false;
    }
    v, pass := EvalSides(tokens, p, q, op, m);
  }

  /** The two sides of a root operator, and the operation on their values. */
  method EvalSides(tokens: array<Token>, p: nat, q: nat, op: nat, m: Machine) returns (v: Word, pass: bool)
    requires p < q < tokens.Length && p <= op <= q
    requires Classified(tokens[p..q + 1]) && NoNames(tokens[p..q + 1])
    requires !Enclosed(tokens[p..q + 1]) && RootOp(tokens[p..q + 1]) == op - p
    ensures Result(v, pass) == ParsedValue(tokens[p..q + 1], m)
    decreases q - p + 1, 0
  {
    hide *;
    ghost var ts := tokens[p..q + 1];
    ghost var k := op - p;
    SideSlices(tokens, p, q, op);
    RootCases(ts, k, m);
    var v1, pass1 := Eval(tokens, p, op - 1, m);
    var v2, pass2 := Eval(tokens, op + 1, q, m);
    v, pass := Apply(v1, pass1, tokens[op].kind, v2, pass2, m);
  }

  /** Binary when the left side has a value, unary when it has not. */
  function Combine(l: Option<Word>, op: TokenType, r: Option<Word>, m: Machine): Option<Word> {
    if r.None? then None
    else if l.Some? then Calc2(l.value, op, r.value)
    else Calc1(op, r.value, m)
  }

  method Apply(v1: Word, pass1: bool, op: TokenType, v2: Word, pass2: bool, m: Machine)
    returns (v: Word, pass: bool)
    ensures Result(v, pass) == Combine(Result(v1, pass1), op, Result(v2, pass2), m)
  {
    if !pass2 {
      v, pass := 0, false;
    } else if pass1 {
      v, pass := Unpack(Calc2(v1, op, v2));
    } else {
      v, pass := Unpack(Calc1(op, v2, m));
    }
  }

  lemma {:induction false} SideSlices(tokens: array<Token>, p: nat, q: nat, op: nat)
    requires p <= op <= q < tokens.Length
    requires Classified(tokens[p..q + 1]) && NoNames(tokens[p..q + 1])
    ensures tokens[p..q + 1][..op - p] == tokens[p..op] && tokens[p..q + 1][op - p + 1..] == tokens[op + 1..q + 1]
    ensures tokens[p..q + 1][op - p] == tokens[op]
    ensures Classified(tokens[p..op]) && NoNames(tokens[p..op])
    ensures Classified(tokens[op + 1..q + 1]) && NoNames(tokens[op + 1..q + 1])
  {
    var ts, k := tokens[p..q + 1], op - p;
    assert ts[..k] == tokens[p..op] && ts[k + 1..] == tokens[op + 1..q + 1];
    SliceKeeps(ts, 0, k);
    SliceKeeps(ts, k + 1, |ts|);
  }

  function Result(v: Word, pass: bool): Option<Word> { if pass then Some(v) else None }

  method Unpack(r: Option<Word>) returns (v: Word, pass: bool)
    ensures Result(v, pass) == r
  {
    match r {
      case None => v, pass := 0, false;
      case Some(x) => v, pass := x, true;
    }
  }

  /** The value at a root operator in terms of the values of the two sides. */
  lemma {:induction false} RootCases(ts: seq<Token>, k: nat, m: Machine)
    requires Classified(ts) && NoNames(ts) && |ts| > 1 && !Enclosed(ts) && RootOp(ts) == k
    ensures ParsedValue(ts, m) == Combine(ParsedValue(ts[..k], m), ts[k].kind, ParsedValue(ts[k + 1..], m), m)
  {
    RootIsOperator(ts, |ts|);
    LevelsPositive(ts[k].kind);
    hide Classified, NoNames, Enclosed, RootOp, ParsedValue, Parse, Calc1, Calc2;
    if IsUnary(ts[k].kind) {
      UnaryRootIsFirst(ts);
      ValueAtUnary(ts, m);
    } else {
      ValueAtBinary(ts, k, m);
    }
  }

  lemma {:induction false} ValueAtUnary(ts: seq<Token>, m: Machine)
    requires NoNames(ts) && |ts| > 1 && !Enclosed(ts) && RootOp(ts) == 0 && IsUnary(ts[0].kind)
    ensures ParsedValue(ts, m) == Combine(ParsedValue(ts[..0], m), ts[0].kind, ParsedValue(ts[1..], m), m)
  {
    hide Enclosed, RootOp, Calc1, Calc2;
    assert ts[..0] == [];
  }

  lemma {:induction false} ValueAtBinary(ts: seq<Token>, k: nat, m: Machine)
    requires NoNames(ts) && |ts| > 1 && !Enclosed(ts) && k < |ts| && RootOp(ts) == k && !IsUnary(ts[k].kind)
    ensures ParsedValue(ts, m) == Combine(ParsedValue(ts[..k], m), ts[k].kind, ParsedValue(ts[k + 1..], m), m)
  {
    BinaryIsNoPrefix(ts[k].kind, m);
    hide Enclosed, RootOp, Calc1, Calc2;
  }

  lemma {:induction false} BinaryIsNoPrefix(k: TokenType, m: Machine)
    requires !IsUnary(k)
    ensures forall v: Word :: Calc1(k, v, m).None?
  {
  }

  // ---- The whole evaluator ----

  /** One turn of the token loop. */
  method KeepToken(t: Token, tokens: array<Token>, n: nat) returns (n': nat)
    requires n < tokens.Length
    modifies tokens
    ensures n <= n' <= n + 1 && tokens[..n'] == Keep(old(tokens[..n]), t)
  {
    ghost var front := tokens[..n];
    n' := n;
    if t.kind != Space {
      tokens[n] := t;
      if IsAmbiguous(t.kind) {
        if n == 0 || !IsBound(tokens[n - 1].kind) {
          tokens[n] := t.(kind := AsUnary(t.kind));
        }
      }
      assert tokens[..n] == front;
      n' := n + 1;
      assert tokens[..n'] == front + [tokens[n]];
    }
  }

  /** The token loop of `make_token`, on the lexemes found by the rules. */
  method MakeTokens(raw: seq<Token>, tokens: array<Token>) returns (n: nat)
    requires |raw| <= tokens.Length
    modifies tokens
    ensures n <= tokens.Length && tokens[..n] == Classify(raw)
  {
    n := 0;
    var i := 0;
    while i < |raw|
      invariant 0 <= i <= |raw| && n <= i && tokens[..n] == Classify(raw[..i])
    {
      n := KeepToken(raw[i], tokens, n);
      assert raw[..i + 1][..i] == raw[..i];
      i := i + 1;
    }
    assert raw[..|raw|] == raw;
  }

  /** `expr`: for lexemes without names, the evaluator passes exactly when the tokens derive from the
      grammar and the tree, which is then the only one, has a value. */
  method Expr(raw: seq<Token>, tokens: array<Token>, m: Machine) returns (v: Word, pass: bool)
    requires |raw| <= tokens.Length && Lexemes(raw) && forall t :: t in raw ==> t.kind != Name
    modifies tokens
    ensures pass <==> exists t: Tree :: Derives(t, 1) && Show(t) == Classify(raw) && Value(t, m).Some?
    ensures forall t: Tree :: pass && Derives(t, 1) && Show(t) == Classify(raw) ==> Value(t, m) == Some(v)
  {
    var n := MakeTokens(raw, tokens);
    ClassifyIsClassified(raw);
    assert tokens[0..n] == Classify(raw);
    v, pass := Eval(tokens, 0, (n as int) - 1, m);
    assert tokens[0..n] == Classify(raw);
    TheTree(Classify(raw), m);
  }

  function Plain(k: TokenType): TokenType {
    match k
    case Pos => Plus
    case Neg => Minus
    case Deref => Star
    case _ => k
  }

  /** A tree as it is typed: without telling unary from binary operators. */
  function Spell(t: Tree): (s: seq<Token>)
    ensures |s| > 0
  {
    match t
    case Operand(a) => [a]
    case Group(o, x, c) => [o] + Spell(x) + [c]
    case Prefix(op, x) => [op.(kind := Plain(op.kind))] + Spell(x)
    case Infix(l, op, r) => Spell(l) + [op] + Spell(r)
  }

  /** No operand has just ended. */
  predicate Opens(front: seq<Token>) { front == [] || !IsBound(front[|front| - 1].kind) }

  lemma {:induction false} ClassifyAdds(raw: seq<Token>, t: Token)
    ensures Classify(raw + [t]) == Keep(Classify(raw), t)
  {
    assert (raw + [t])[..|raw|] == raw;
  }

  lemma {:induction false} LastIsBound(t: Tree)
    requires Derives(t, 1)
    ensures IsBound(Show(t)[|Show(t)| - 1].kind)
  {
    match t
    case Operand(_) =>
    case Group(_, _, _) =>
    case Prefix(_, x) =>
      DerivesLower(x, 1, 7);
      LastIsBound(x);
    case Infix(_, op, r) =>
      DerivesLower(r, 1, Level(op.kind) + 1);
      LastIsBound(r);
  }

  lemma {:induction false} KeepCases(front: seq<Token>, t: Token)
    requires t.kind != Space
    ensures !IsAmbiguous(t.kind) || !Opens(front) ==> Keep(front, t) == front + [t]
    ensures IsUnary(t.kind) && Opens(front) ==> Keep(front, t.(kind := Plain(t.kind))) == front + [t]
    ensures Opens(front + [t]) <==> !IsBound(t.kind)
  {
  }

  lemma {:induction false} Regroup<T>(a: seq<T>, b: seq<T>, c: seq<T>, d: seq<T>)
    ensures a + (b + c) == a + b + c && a + (b + c + d) == a + b + c + d
  {
  }

  lemma {:induction false} ClassifySpell(raw: seq<Token>, t: Tree)
    requires Derives(t, 1) && Opens(Classify(raw))
    ensures Classify(raw + Spell(t)) == Classify(raw) + Show(t)
    decreases t, 1
  {
    hide Classify;
    match t
    case Operand(a) =>
      ClassifyAdds(raw, a);
      KeepCases(Classify(raw), a);
    case Group(o, x, c) => ClassifyGroup(raw, o, x, c);
    case Prefix(op, x) => ClassifyPrefix(raw, op, x);
    case Infix(l, op, r) => ClassifyInfix(raw, l, op, r);
  }

  lemma {:induction false} ClassifyGroup(raw: seq<Token>, o: Token, x: Tree, c: Token)
    requires Derives(Group(o, x, c), 1) && Opens(Classify(raw))
    ensures Classify(raw + Spell(Group(o, x, c))) == Classify(raw) + Show(Group(o, x, c))
    decreases Group(o, x, c), 0
  {
    hide Classify;
    var front := Classify(raw);
    ClassifyAdds(raw, o);
    KeepCases(front, o);
    ClassifySpell(raw + [o], x);
    ClassifyAdds(raw + [o] + Spell(x), c);
    KeepCases(front + [o] + Show(x), c);
    Regroup(raw, [o], Spell(x), [c]);
    Regroup(front, [o], Show(x), [c]);
  }

  lemma {:induction false} ClassifyPrefix(raw: seq<Token>, op: Token, x: Tree)
    requires IsUnary(op.kind) && Derives(x, 7) && Opens(Classify(raw))
    ensures Classify(raw + Spell(Prefix(op, x))) == Classify(raw) + Show(Prefix(op, x))
    decreases Prefix(op, x), 0
  {
    hide Classify;
    DerivesLower(x, 1, 7);
    var o, front := op.(kind := Plain(op.kind)), Classify(raw);
    ClassifyAdds(raw, o);
    KeepCases(front, op);
    ClassifySpell(raw + [o], x);
    Regroup(raw, [o], Spell(x), []);
    Regroup(front, [op], Show(x), []);
  }

  lemma {:induction false} ClassifyInfix(raw: seq<Token>, l: Tree, op: Token, r: Tree)
    requires Derives(Infix(l, op, r), 1) && Opens(Classify(raw))
    ensures Classify(raw + Spell(Infix(l, op, r))) == Classify(raw) + Show(Infix(l, op, r))
    decreases Infix(l, op, r), 0
  {
    hide Classify;
    DerivesLower(l, 1, Level(op.kind));
    DerivesLower(r, 1, Level(op.kind) + 1);
    ClassifySpell(raw, l);
    LastIsBound(l);
    var front := Classify(raw) + Show(l);
    ClassifyAdds(raw + Spell(l), op);
    LevelsPositive(op.kind);
    KeepCases(front, op);
    ClassifySpell(raw + Spell(l) + [op], r);
    Regroup(raw, Spell(l), [op], Spell(r));
    Regroup(Classify(raw), Show(l), [op], Show(r));
  }

  /** Typing a tree and classifying the lexemes gives the tokens of the tree. */
  lemma {:induction false} SpellClassifies(t: Tree)
    requires Derives(t, 1)
    ensures Classify(Spell(t)) == Show(t)
  {
    var none: seq<Token> := [];
    assert Classify(none) == none && Opens(none);
    hide *;
    ClassifySpell(none, t);
    assert none + Spell(t) == Spell(t) && none + Show(t) == Show(t);
  }

  /** Every tree of the grammar, typed as lexemes, is classified and parsed back to itself. */
  lemma {:induction false} SpellParses(t: Tree)
    requires Derives(t, 1)
    ensures Parse(Classify(Spell(t))) == Some(t)
  {
    hide *;
    SpellClassifies(t);
    ParseShow(t);
  }

  lemma {:induction false} TheTree(ts: seq<Token>, m: Machine)
    requires NoNames(ts)
    ensures ParsedValue(ts, m).Some? <==> exists t: Tree :: Derives(t, 1) && Show(t) == ts && Value(t, m).Some?
    ensures forall t: Tree :: Derives(t, 1) && Show(t) == ts ==> Value(t, m) == ParsedValue(ts, m)
  {
    forall t: Tree
      ensures Parse(ts) == Some(t) <==> Derives(t, 1) && Show(t) == ts
    {
      ParseExact(ts, t);
    }
    if ParsedValue(ts, m).Some? {
      var t := Parse(ts).value;
      assert Derives(t, 1) && Show(t) == ts;
    }
  }
}
