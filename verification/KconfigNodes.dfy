/**
 Expressions as nodes that are overwritten in place (`struct expr`): removing y and n, dropping `!= n`, pushing
 negation down and cancelling equal operands. Each method leaves the value its function says.
 */
module KconfigNodes {
  import opened Options
  import opened KconfigExpr
  import opened KconfigEq
  import opened KconfigTransform

  datatype Kind = SymK | NotK | GateK(g: Gate) | CmpK(rel: Relation)

  /** A node: `left` and `right` are its expressions, `a` and `b` its symbols, as far as its kind has them. */
  class Node {
    var kind: Kind
    var left: Node?
    var right: Node?
    var a: Symbol
    var b: Symbol

    /** `expr_alloc_symbol` and `expr_alloc_comp`. */
    constructor Leaf(kind: Kind, a: Symbol, b: Symbol)
      ensures this.kind == kind && this.a == a && this.b == b && left == null && right == null
    {
      this.kind, this.a, this.b := kind, a, b;
      left, right := null, null;
    }

    /** `expr_alloc_one` and `expr_alloc_two`. */
    constructor Inner(kind: Kind, left: Node, right: Node?)
      ensures this.kind == kind && this.left == left && this.right == right
    {
      this.kind, this.left, this.right := kind, left, right;
      a, b := SYMBOL_NO, SYMBOL_NO;
    }
  }

  /** Which nodes make up a tree, and where. */
  datatype Shape = Leaf(n: Node) | One(n: Node, x: Shape) | Two(n: Node, x: Shape, y: Shape)

  ghost function Cells(s: Shape): set<Node> {
    match s
    case Leaf(n) => {n}
    case One(n, x) => {n} + Cells(x)
    case Two(n, x, y) => {n} + Cells(x) + Cells(y)
  }

  /** No node occurs twice: trees are not shared. */
  ghost predicate Apart(s: Shape) {
    match s
    case Leaf(_) => true
    case One(n, x) => n !in Cells(x) && Apart(x)
    case Two(n, x, y) => n !in Cells(x) && n !in Cells(y) && Cells(x) !! Cells(y) && Apart(x) && Apart(y)
  }

  /** The nodes from `n` down are linked as the shape says. */
  ghost predicate Tree(s: Shape, n: Node)
    reads Cells(s)
  {
    match s
    case Leaf(m) => n == m && (m.kind.SymK? || m.kind.CmpK?)
    case One(m, x) => n == m && m.kind.NotK? && m.left != null && Tree(x, m.left)
    case Two(m, x, y) =>
      n == m && m.kind.GateK? && m.left != null && m.right != null && Tree(x, m.left) && Tree(y, m.right)
  }

  /** The expression the nodes stand for. */
  ghost function Value(s: Shape): Expr
    reads Cells(s)
  {
    match s
    case Leaf(m) => if m.kind.CmpK? then Cmp(m.kind.rel, m.a, m.b) else Sym(m.a)
    case One(_, x) => Not(Value(x))
    case Two(m, x, y) => Bin(if m.kind.GateK? then m.kind.g else And, Value(x), Value(y))
  }

  /** The expression at `n`, if the nodes from there on are linked as the shape says. */
  ghost function Spelled(s: Shape, n: Node): Option<Expr>
    reads Cells(s)
  {
    if Apart(s) && Tree(s, n) then Some(Value(s)) else None
  }

  /** A tree of its own with the value `e`. */
  ghost predicate Stands(s: Shape, n: Node, e: Expr)
    reads Cells(s)
  {
    Spelled(s, n) == Some(e)
  }

  /** The shape with another node at the root. */
  ghost function Retop(s: Shape, n: Node): Shape {
    match s
    case Leaf(_) => Leaf(n)
    case One(_, x) => One(n, x)
    case Two(_, x, y) => Two(n, x, y)
  }

  /** The two operands of a gate as trees of their own. */
  ghost predicate Operands(n: Node, x: Shape, y: Shape, g: Gate, l: Expr, r: Expr)
    reads n, Cells(x), Cells(y)
  {
    && n.kind == GateK(g) && n.left != null && n.right != null
    && Stands(x, n.left, l) && Stands(y, n.right, r)
    && n !in Cells(x) && n !in Cells(y) && Cells(x) !! Cells(y)
  }

  lemma {:induction false} GateParts(n: Node, s: Shape, e: Expr)
    requires Stands(s, n, e) && n.kind.GateK?
    ensures s.Two? && e.Bin? && Operands(n, s.x, s.y, n.kind.g, e.l, e.r) && e == Bin(n.kind.g, e.l, e.r)
    ensures Cells(s) == {n} + Cells(s.x) + Cells(s.y)
  {
  }

  lemma {:induction false} GateJoined(n: Node, x: Shape, y: Shape, g: Gate, l: Expr, r: Expr)
    requires Operands(n, x, y, g, l, r)
    ensures Stands(Two(n, x, y), n, Bin(g, l, r)) && Cells(Two(n, x, y)) == {n} + Cells(x) + Cells(y)
  {
  }

  /** What the kind of a node says about its expression. */
  lemma {:induction false} KindIs(n: Node, s: Shape, e: Expr)
    requires Stands(s, n, e)
    ensures n.kind.GateK? ==> IsGate(n.kind.g, e)
    ensures n.kind.NotK? ==>
              && e.Not? && s.One? && n.left != null && Cells(s) == {n} + Cells(s.x)
              && n !in Cells(s.x) && Stands(s.x, n.left, e.e)
    ensures n.kind.SymK? ==> e == Sym(n.a) && Cells(s) == {n}
    ensures n.kind.CmpK? ==> e == Cmp(n.kind.rel, n.a, n.b) && Cells(s) == {n}
    ensures n in Cells(s)
  {
  }

  lemma {:induction false} NotJoined(n: Node, x: Shape, e: Expr)
    requires n.kind.NotK? && n.left != null && Stands(x, n.left, e) && n !in Cells(x)
    ensures Stands(One(n, x), n, Not(e)) && Cells(One(n, x)) == {n} + Cells(x)
  {
  }

  // ---- Removing y and n operands ----

  /** `*n = *m`, after which `m` is freed. */
  method Overwrite(n: Node, m: Node, ghost s: Shape, ghost e: Expr)
    requires Stands(s, m, e) && n !in Cells(s)
    modifies n
    ensures Stands(Retop(s, n), n, e) && Cells(Retop(s, n)) <= Cells(s) + {n}
  {
    assert allocated(Cells(s));
    match s {
      case Leaf(_) =>
      case One(_, x) => assert allocated(Cells(x));
      case Two(_, x, y) => assert allocated(Cells(x)) && allocated(Cells(y));
    }
    n.kind, n.left, n.right, n.a, n.b := m.kind, m.left, m.right, m.a, m.b;
  }

  /** A node that becomes y or n. */
  method BecomeConstant(n: Node, c: Symbol)
    modifies n
    ensures Stands(Leaf(n), n, Sym(c))
  {
    n.kind := SymK;
    n.a := c;
    n.right := null;
  }

  /** A node and three sets of nodes that share nothing. */
  ghost predicate Trio(n: Node, a: set<Node>, b: set<Node>, c: set<Node>) {
    n !in a && n !in b && n !in c && a !! b && a !! c && b !! c
  }

  /** `expr_eliminate_yn`; the root node stays. */
  method EliminateYn(n: Node, ghost s: Shape, ghost e: Expr) returns (ghost s': Shape)
    requires Stands(s, n, e)
    modifies Cells(s)
    ensures Stands(s', n, Yn(e)) && Cells(s') <= Cells(s)
    decreases s
  {
    s' := s;
    if n.kind.GateK? {
      ghost var x, y := s.x, s.y;
      assert allocated(Cells(x)) && allocated(Cells(y));
      ghost var x' := EliminateYn(n.left, x, e.l);
      assert allocated(Cells(x'));
      ghost var y' := EliminateYn(n.right, y, e.r);
      s' := SimplifyGate(n, n.kind.g, x', y', Yn(e.l), Yn(e.r));
    }
  }

  /** The case analysis on the operands of a gate. */
  method SimplifyGate(n: Node, g: Gate, ghost x: Shape, ghost y: Shape, ghost l: Expr, ghost r: Expr)
    returns (ghost s': Shape)
    requires Operands(n, x, y, g, l, r)
    modifies n
    ensures Cells(s') <= {n} + Cells(x) + Cells(y)
    ensures Stands(s', n,
      if l == AbsorbingLeaf(g) then AbsorbingLeaf(g) else if l == NeutralLeaf(g) then r
      else if r == AbsorbingLeaf(g) then AbsorbingLeaf(g) else if r == NeutralLeaf(g) then l else Bin(g, l, r))
  {
    s' := Two(n, x, y);
    var absorbing, neutral := if g == And then SYMBOL_NO else SYMBOL_YES, if g == And then SYMBOL_YES else SYMBOL_NO;
    if n.left.kind == SymK {
      if n.left.a == absorbing {
        BecomeConstant(n, absorbing);
        s' := Leaf(n);
        return;
      } else if n.left.a == neutral {
        Overwrite(n, n.right, y, r);
        s' := Retop(y, n);
        return;
      }
    }
    if n.right.kind == SymK {
      if n.right.a == absorbing {
        BecomeConstant(n, absorbing);
        s' := Leaf(n);
        return;
      } else if n.right.a == neutral {
        Overwrite(n, n.left, x, l);
        s' := Retop(x, n);
        return;
      }
    }
  }

  /** `expr_trans_bool`. */
  method TransBoolNodes(n: Node, ghost s: Shape, ghost e: Expr) returns (ghost s': Shape)
    requires Stands(s, n, e)
    modifies Cells(s)
    ensures Stands(s', n, TransBool(e)) && Cells(s') == Cells(s)
    decreases s
  {
    s' := s;
    match n.kind {
      case GateK(_) =>
        ghost var x, y := s.x, s.y;
        assert allocated(Cells(x)) && allocated(Cells(y));
        ghost var x' := TransBoolNodes(n.left, x, e.l);
        assert allocated(Cells(x'));
        ghost var y' := TransBoolNodes(n.right, y, e.r);
        s' := Two(n, x', y');
      case NotK =>
        ghost var x' := TransBoolNodes(n.left, s.x, e.e);
        s' := One(n, x');
      case CmpK(rel) =>
        if rel == Unequal && n.a.stype == Tristate && n.b == SYMBOL_NO {
          n.kind := SymK;
        }
      case SymK =>
    }
  }

  // ---- Pushing negation down ----

  /** What `Transform` makes of a negation, by what its operand became. */
  lemma {:induction false} TransformNotCases(e: Expr)
    requires e.Not?
    ensures var x := Transform(e.e);
            && Weight(e.e) < Weight(e)
            && (x.Not? ==> Transform(e) == Transform(x.e) && Weight(x.e) < Weight(e))
            && (x.Cmp? ==> Transform(e) == Cmp(Opposite(x.rel), x.a, x.b))
            && (x.Bin? ==>
                  var d := Bin(Dual(x.op), Not(x.l), Not(x.r)); Transform(e) == Transform(d) && Weight(d) < Weight(e))
            && (x.Sym? ==> Transform(e) == if x.s == SYMBOL_YES then Sym(SYMBOL_NO) else if x.s == SYMBOL_MOD then x
                             else if x.s == SYMBOL_NO then Sym(SYMBOL_YES) else Not(x))
  {
    var x := Transform(e.e);
    if x.Bin? {
      DeMorganIsLighter(x.op, x.l, x.r);
    }
  }

  lemma {:induction false} TransformGateCase(e: Expr)
    requires e.Bin?
    ensures Transform(e) == Bin(e.op, Transform(e.l), Transform(e.r))
    ensures Weight(e.l) < Weight(e) && Weight(e.r) < Weight(e)
  {
  }

  /** `expr_transform`: the node that takes the place of `n`. */
  method TransformNodes(n: Node, ghost s: Shape, ghost e: Expr) returns (n': Node, ghost s': Shape)
    requires Stands(s, n, e)
    modifies Cells(s)
    ensures Stands(s', n', Transform(e)) && (forall c :: c in Cells(s') ==> c in Cells(s) || fresh(c))
    decreases Weight(e)
  {
    KindIs(n, s, e);
    if n.kind.GateK? {
      GateParts(n, s, e);
      TransformGateCase(e);
      n' := n;
      s' := TransformOperands(n, s.x, s.y, n.kind.g, e);
    } else if n.kind == NotK {
      TransformNotCases(e);
      hide *;
      var x;
      ghost var x';
      x, x' := TransformNodes(n.left, s.x, e.e);
      n.left := x;
      n', s' := TransformNot(n, x', e);
    } else if n.kind.CmpK? {
      n' := n;
      s' := TransformComparisonNode(n, n.kind.rel);
    } else {
      n', s' := n, s;
    }
  }

  method TransformOperands(n: Node, ghost x: Shape, ghost y: Shape, g: Gate, ghost e: Expr) returns (ghost s': Shape)
    requires e.Bin? && e.op == g && Operands(n, x, y, g, e.l, e.r)
    requires Weight(e.l) < Weight(e) && Weight(e.r) < Weight(e)
    modifies n, Cells(x), Cells(y)
    ensures Stands(s', n, Bin(g, Transform(e.l), Transform(e.r)))
    ensures forall c :: c in Cells(s') ==> c == n || c in Cells(x) || c in Cells(y) || fresh(c)
    decreases Weight(e), 0
  {
    hide Stands, Cells, Transform, Weight;
    var left, right;
    ghost var x', y';
    assert allocated(Cells(y));
    left, x' := TransformNodes(n.left, x, e.l);
    n.left := left;
    assert allocated(Cells(x'));
    right, y' := TransformNodes(n.right, y, e.r);
    assert allocated(Cells(y'));
    n.right := right;
    s' := Two(n, x', y');
    GateJoined(n, x', y', g, Transform(e.l), Transform(e.r));
  }

  /** A negation whose operand was transformed. */
  ghost predicate Negation(n: Node, x: Shape, e: Expr)
    reads n, Cells(x)
  {
    n.kind == NotK && n.left != null && Stands(x, n.left, e) && n !in Cells(x)
  }

  /** The second half of `expr_transform` for a negation. */
  method TransformNot(n: Node, ghost x: Shape, ghost e: Expr) returns (n': Node, ghost s': Shape)
    requires e.Not? && Negation(n, x, Transform(e.e))
    modifies n, Cells(x)
    ensures Stands(s', n', Transform(e)) && (forall c :: c in Cells(s') ==> c == n || c in Cells(x) || fresh(c))
    decreases Weight(e), 0
  {
    TransformNotCases(e);
    KindIs(n.left, x, Transform(e.e));
    var tmp := n.left;
    if tmp.kind == NotK {
      n', s' := TransformNodes(tmp.left, x.x, Transform(e.e).e);
    } else if tmp.kind.CmpK? {
      tmp.kind := CmpK(Opposite(tmp.kind.rel));
      n', s' := tmp, Leaf(tmp);
    } else if tmp.kind.GateK? {
      ghost var d;
      d, s' := DeMorganNodes(n, x, tmp.kind.g, Transform(e.e));
      n', s' := TransformNodes(n, s', d);
    } else if tmp.a == SYMBOL_YES || tmp.a == SYMBOL_MOD || tmp.a == SYMBOL_NO {
      tmp.a := if tmp.a == SYMBOL_YES then SYMBOL_NO else if tmp.a == SYMBOL_MOD then SYMBOL_MOD else SYMBOL_YES;
      n', s' := tmp, Leaf(tmp);
    } else {
      NotJoined(n, x, Transform(e.e));
      n', s' := n, One(n, x);
    }
  }

  /** `!(a || b)` becomes `!a && !b`, and the other way round. */
  method DeMorganNodes(n: Node, ghost x: Shape, g: Gate, ghost e: Expr) returns (ghost d: Expr, ghost s': Shape)
    requires e.Bin? && e.op == g && Negation(n, x, e)
    modifies n, Cells(x)
    ensures d == Bin(Dual(g), Not(e.l), Not(e.r))
    ensures Stands(s', n, d) && (forall c :: c in Cells(s') ==> c == n || c in Cells(x) || fresh(c))
  {
    var tmp := n.left;
    GateParts(tmp, x, e);
    hide Stands, Cells;
    assert allocated(Cells(x.x)) && allocated(Cells(x.y));
    n.kind := GateK(Dual(g));
    var right := new Node.Inner(NotK, tmp.right, null);
    n.right := right;
    tmp.kind := NotK;
    tmp.right := null;
    d := Bin(Dual(g), Not(e.l), Not(e.r));
    NotJoined(tmp, x.x, e.l);
    NotJoined(right, x.y, e.r);
    GateJoined(n, One(tmp, x.x), One(right, x.y), Dual(g), Not(e.l), Not(e.r));
    s' := Two(n, One(tmp, x.x), One(right, x.y));
  }

  /** The tests of a bool against y, m or n. */
  method TransformComparisonNode(n: Node, rel: Relation) returns (ghost s': Shape)
    requires n.kind == CmpK(rel)
    modifies n
    ensures Stands(s', n, TransformComparison(rel, old(n.a), old(n.b)))
    ensures forall c :: c in Cells(s') ==> c == n || fresh(c)
  {
    s' := Leaf(n);
    if n.a.stype == Boolean && (rel == Equal || rel == Unequal) {
      if n.b == SYMBOL_MOD {
        n.kind := SymK;
        n.a := if rel == Equal then SYMBOL_NO else SYMBOL_YES;
      } else if n.b == if rel == Equal then SYMBOL_YES else SYMBOL_NO {
        n.kind := SymK;
      } else if n.b == if rel == Equal then SYMBOL_NO else SYMBOL_YES {
        var leaf := NewLeaf(n.a);
        n.kind := NotK;
        n.left := leaf;
        NotJoined(n, Leaf(leaf), Sym(old(n.a)));
        s' := One(n, Leaf(leaf));
      }
    }
  }

  // ---- Cancelling equal operands ----

  /** A new y or n leaf. */
  method NewLeaf(c: Symbol) returns (n: Node)
    ensures fresh(n) && Stands(Leaf(n), n, Sym(c))
  {
    n := new Node.Leaf(SymK, c, c);
  }

  /** Two trees without a common node. */
  ghost predicate Pair(s: Shape, n: Node, a: Expr, t: Shape, m: Node, b: Expr)
    reads Cells(s), Cells(t)
  {
    Stands(s, n, a) && Stands(t, m, b) && Cells(s) !! Cells(t)
  }

  /** `expr_copy`. */
  method CopyNodes(n: Node, ghost s: Shape, ghost e: Expr) returns (c: Node, ghost s': Shape)
    requires Stands(s, n, e)
    ensures Stands(s', c, e) && (forall k :: k in Cells(s') ==> fresh(k))
    decreases Size(e)
  {
    KindIs(n, s, e);
    if n.kind.GateK? {
      GateParts(n, s, e);
      c, s' := CopyGate(n, s.x, s.y, n.kind.g, e.l, e.r);
    } else if n.kind == NotK {
      var x;
      ghost var x';
      x, x' := CopyNodes(n.left, s.x, e.e);
      assert allocated(Cells(x'));
      c := new Node.Inner(NotK, x, null);
      NotJoined(c, x', e.e);
      s' := One(c, x');
    } else {
      c := new Node.Leaf(n.kind, n.a, n.b);
      s' := Leaf(c);
    }
  }

  method CopyGate(n: Node, ghost x: Shape, ghost y: Shape, g: Gate, ghost l: Expr, ghost r: Expr)
    returns (c: Node, ghost s': Shape)
    requires Operands(n, x, y, g, l, r)
    ensures Stands(s', c, Bin(g, l, r)) && (forall k :: k in Cells(s') ==> fresh(k))
    decreases Size(l) + Size(r)
  {
    hide Stands, Cells;
    var left, right;
    ghost var x', y';
    assert allocated(Cells(y));
    left, x' := CopyNodes(n.left, x, l);
    assert allocated(Cells(x'));
    right, y' := CopyNodes(n.right, y, r);
    assert allocated(Cells(y'));
    c := new Node.Inner(GateK(g), left, right);
    GateJoined(c, x', y', g, l, r);
    s' := Two(c, x', y');
  }

  /** `expr_eq`: gates are compared by cancelling the operands of two copies. */
  method EqualNodes(n: Node, m: Node, ghost s: Shape, ghost t: Shape, ghost a: Expr, ghost b: Expr)
    returns (equal: bool)
    requires Stands(s, n, a) && Stands(t, m, b)
    ensures equal == ExprEq(a, b)
    decreases Size(a) + Size(b), 2
  {
    KindIs(n, s, a);
    KindIs(m, t, b);
    if n.kind != m.kind {
      return false;
    }
    match n.kind {
      case SymK => equal := n.a == m.a;
      case CmpK(_) => equal := n.a == m.a && n.b == m.b;
      case NotK => equal := EqualNodes(n.left, m.left, s.x, t.x, a.e, b.e);
      case GateK(_) => equal := EqualGates(n, m, s, t, a, b);
    }
  }

  method EqualGates(n: Node, m: Node, ghost s: Shape, ghost t: Shape, ghost a: Expr, ghost b: Expr)
    returns (equal: bool)
    requires Stands(s, n, a) && Stands(t, m, b) && a.Bin? && b.Bin? && a.op == b.op
    ensures equal == ExprEq(a, b)
    decreases Size(a) + Size(b), 1, 1
  {
    hide Stands, Cells;
    var c, d;
    ghost var s', t';
    assert allocated(Cells(t));
    c, s' := CopyNodes(n, s, a);
    assert allocated(Cells(s'));
    d, t' := CopyNodes(m, t, b);
    c, d, s', t' := EliminateEqNodes(c, d, s', t', a, b);
    KindIs(c, s', EliminateEq(a, b).0);
    KindIs(d, t', EliminateEq(a, b).1);
    equal := c.kind == SymK && d.kind == SymK && c.a == d.a;
  }

  lemma {:induction false} EliminateEqSteps(a: Expr, b: Expr)
    ensures var c := if a.Bin? then CancelOperands(a.op, a, b) else (a, b);
            var d := if c.1.Bin? && !SameType(c.0, c.1) then CancelOperands(c.1.op, c.0, c.1) else c;
            && EliminateEq(a, b) == (Yn(d.0), Yn(d.1))
            && Size(c.0) + Size(c.1) <= Size(a) + Size(b)
  {
  }

  /** `expr_eliminate_eq`. */
  method EliminateEqNodes(n: Node, m: Node, ghost s: Shape, ghost t: Shape, ghost a: Expr, ghost b: Expr)
    returns (n': Node, m': Node, ghost s': Shape, ghost t': Shape)
    requires Pair(s, n, a, t, m, b)
    modifies Cells(s), Cells(t)
    ensures Pair(s', n', EliminateEq(a, b).0, t', m', EliminateEq(a, b).1)
    ensures forall c :: c in Cells(s') ==> c in Cells(s) || fresh(c)
    ensures forall c :: c in Cells(t') ==> c in Cells(t) || fresh(c)
    decreases Size(a) + Size(b), 1, 0
  {
    EliminateEqSteps(a, b);
    KindIs(n, s, a);
    KindIs(m, t, b);
    ghost var c := if a.Bin? then CancelOperands(a.op, a, b) else (a, b);
    ghost var d := if c.1.Bin? && !SameType(c.0, c.1) then CancelOperands(c.1.op, c.0, c.1) else c;
    hide Stands, Cells, CancelOperands, EliminateEq, Size, Yn;
    n', m', s', t' := n, m, s, t;
    if n.kind.GateK? {
      n', m', s', t' := CancelNodes(n.kind.g, n, m, s, t, a, b);
    }
    KindIs(n', s', c.0);
    KindIs(m', t', c.1);
    if n'.kind != m'.kind && m'.kind.GateK? {
      n', m', s', t' := CancelNodes(m'.kind.g, n', m', s', t', c.0, c.1);
    }
    s', t' := YnBoth(n', m', s', t', d.0, d.1);
  }

  method YnBoth(n: Node, m: Node, ghost s: Shape, ghost t: Shape, ghost a: Expr, ghost b: Expr)
    returns (ghost s': Shape, ghost t': Shape)
    requires Pair(s, n, a, t, m, b)
    modifies Cells(s), Cells(t)
    ensures Pair(s', n, Yn(a), t', m, Yn(b)) && Cells(s') <= Cells(s) && Cells(t') <= Cells(t)
  {
    hide Stands, Cells, Yn;
    assert allocated(Cells(t));
    s' := EliminateYn(n, s, a);
    assert allocated(Cells(s'));
    t' := EliminateYn(m, t, b);
  }

  lemma {:induction false} CancelLeafCase(g: Gate, a: Expr, b: Expr)
    requires !IsGate(g, a) && !IsGate(g, b)
    ensures CancelOperands(g, a, b) ==
      if (a == b && IsConstLeaf(a)) || !ExprEq(a, b) then (a, b) else (NeutralLeaf(g), NeutralLeaf(g))
  {
  }

  /** `__expr_eliminate_eq`: the nodes to store in the two places, which hold `n` and `m`. */
  method CancelNodes(g: Gate, n: Node, m: Node, ghost s: Shape, ghost t: Shape, ghost a: Expr, ghost b: Expr)
    returns (n': Node, m': Node, ghost s': Shape, ghost t': Shape)
    requires Pair(s, n, a, t, m, b)
    modifies Cells(s), Cells(t)
    ensures Pair(s', n', CancelOperands(g, a, b).0, t', m', CancelOperands(g, a, b).1)
    ensures forall c :: c in Cells(s') ==> c in Cells(s) || fresh(c)
    ensures forall c :: c in Cells(t') ==> c in Cells(t) || fresh(c)
    decreases Size(a) + Size(b), if IsGate(g, a) || IsGate(g, b) then 0 else 3, 1
  {
    KindIs(n, s, a);
    KindIs(m, t, b);
    hide Stands, Cells, CancelOperands, ExprEq;
    if n.kind == GateK(g) {
      n' := n;
      m', s', t' := CancelInFirst(g, n, m, s, t, a, b);
    } else if m.kind == GateK(g) {
      m' := m;
      n', s', t' := CancelInSecond(g, n, m, s, t, a, b);
    } else {
      CancelLeafCase(g, a, b);
      n', m', s', t' := n, m, s, t;
      assert allocated(Cells(s)) && allocated(Cells(t));
      if n.kind == SymK && m.kind == SymK && n.a == m.a && (n.a == SYMBOL_YES || n.a == SYMBOL_NO) {
        return;
      }
      var equal := EqualNodes(n, m, s, t, a, b);
      if !equal {
        return;
      }
      n', m', s', t' := NewLeaves(g);
    }
  }

  /** The y or n leaves that replace two equal operands. */
  method NewLeaves(g: Gate) returns (n: Node, m: Node, ghost s: Shape, ghost t: Shape)
    ensures Pair(s, n, NeutralLeaf(g), t, m, NeutralLeaf(g)) && fresh(Cells(s)) && fresh(Cells(t))
  {
    var c := if g == Or then SYMBOL_NO else SYMBOL_YES;
    n := NewLeaf(c);
    m := NewLeaf(c);
    s, t := Leaf(n), Leaf(m);
  }

  lemma {:induction false} CancelFirstCase(g: Gate, a: Expr, b: Expr)
    requires IsGate(g, a)
    ensures var l := CancelOperands(g, a.l, b);
            var r := CancelOperands(g, a.r, l.1);
            && CancelOperands(g, a, b) == (Bin(g, l.0, r.0), r.1)
            && Size(a.l) + Size(b) < Size(a) + Size(b) && Size(a.r) + Size(l.1) < Size(a) + Size(b)
  {
  }

  lemma {:induction false} CancelSecondCase(g: Gate, a: Expr, b: Expr)
    requires !IsGate(g, a) && IsGate(g, b)
    ensures var l := CancelOperands(g, a, b.l);
            var r := CancelOperands(g, l.0, b.r);
            && CancelOperands(g, a, b) == (r.0, Bin(g, l.1, r.1))
            && Size(a) + Size(b.l) < Size(a) + Size(b) && Size(l.0) + Size(b.r) < Size(a) + Size(b)
  {
  }

  /** A gate whose operands are being cancelled against a tree elsewhere. */
  ghost predicate Half(n: Node, x: Shape, y: Shape, g: Gate, l: Expr, r: Expr, t: Shape, m: Node, b: Expr)
    reads n, Cells(x), Cells(y), Cells(t)
  {
    && Trio(n, Cells(x), Cells(y), Cells(t)) && n.kind == GateK(g) && n.left != null && n.right != null
    && Stands(x, n.left, l) && Stands(y, n.right, r) && Stands(t, m, b)
  }

  lemma {:induction false} HalfStarts(n: Node, s: Shape, a: Expr, t: Shape, m: Node, b: Expr)
    requires Stands(s, n, a) && n.kind.GateK? && Stands(t, m, b) && Cells(s) !! Cells(t)
    ensures s.Two? && a.Bin? && a == Bin(n.kind.g, a.l, a.r) && Cells(s) == {n} + Cells(s.x) + Cells(s.y)
    ensures Half(n, s.x, s.y, n.kind.g, a.l, a.r, t, m, b)
  {
    GateParts(n, s, a);
  }

  lemma {:induction false} HalfEnds(n: Node, x: Shape, y: Shape, g: Gate, l: Expr, r: Expr, t: Shape, m: Node, b: Expr)
    requires Half(n, x, y, g, l, r, t, m, b)
    ensures Stands(Two(n, x, y), n, Bin(g, l, r)) && Stands(t, m, b) && Cells(Two(n, x, y)) !! Cells(t)
    ensures Cells(Two(n, x, y)) == {n} + Cells(x) + Cells(y)
  {
    GateJoined(n, x, y, g, l, r);
  }

  lemma {:induction false} HalfParts(n: Node, x: Shape, y: Shape, g: Gate, l: Expr, r: Expr, t: Shape, m: Node, b: Expr)
    requires Half(n, x, y, g, l, r, t, m, b)
    ensures n.kind == GateK(g) && n.left != null && n.right != null && Trio(n, Cells(x), Cells(y), Cells(t))
    ensures n !in Cells(x) && n !in Cells(y) && n !in Cells(t)
    ensures Pair(x, n.left, l, t, m, b) && Pair(y, n.right, r, t, m, b) && Stands(x, n.left, l) && Stands(y, n.right, r)
  {
  }

  /** Sets that grew by new nodes only, and stayed apart. */
  lemma {:induction false} TrioGrowsLeft(n: Node, a: set<Node>, b: set<Node>, c: set<Node>, a': set<Node>,
          c': set<Node>)
    requires Trio(n, a, b, c) && a' !! c'
    requires forall k :: k in a' ==> k in a || (k != n && k !in b)
    requires forall k :: k in c' ==> k in c || (k != n && k !in b)
    ensures Trio(n, a', b, c')
  {
  }

  lemma {:induction false} TrioGrowsRight(n: Node, a: set<Node>, b: set<Node>, c: set<Node>, b': set<Node>,
          c': set<Node>)
    requires Trio(n, a, b, c) && b' !! c'
    requires forall k :: k in b' ==> k in b || (k != n && k !in a)
    requires forall k :: k in c' ==> k in c || (k != n && k !in a)
    ensures Trio(n, a, b', c')
  {
  }

  /** Stores the left operand of a gate. */
  method SetLeft(n: Node, left: Node, g: Gate, ghost x: Shape, ghost y: Shape, ghost t: Shape, ghost m: Node,
          ghost l: Expr, ghost r: Expr, ghost b: Expr)
    requires Trio(n, Cells(x), Cells(y), Cells(t)) && Pair(x, left, l, t, m, b)
    requires n.kind == GateK(g) && n.right != null && Stands(y, n.right, r)
    modifies n`left
    ensures Half(n, x, y, g, l, r, t, m, b)
  {
    hide Stands, Cells;
    assert allocated(Cells(x)) && allocated(Cells(y)) && allocated(Cells(t));
    n.left := left;
  }

  /** Stores the right operand of a gate. */
  method SetRight(n: Node, right: Node, g: Gate, ghost x: Shape, ghost y: Shape, ghost t: Shape, ghost m: Node,
          ghost l: Expr, ghost r: Expr, ghost b: Expr)
    requires Trio(n, Cells(x), Cells(y), Cells(t)) && Pair(y, right, r, t, m, b)
    requires n.kind == GateK(g) && n.left != null && Stands(x, n.left, l)
    modifies n`right
    ensures Half(n, x, y, g, l, r, t, m, b)
  {
    hide Stands, Cells;
    assert allocated(Cells(x)) && allocated(Cells(y)) && allocated(Cells(t));
    n.right := right;
  }

  method CancelFirstLeft(g: Gate, n: Node, m: Node, ghost x: Shape, ghost y: Shape, ghost t: Shape, ghost l: Expr,
          ghost r: Expr, ghost b: Expr)
    returns (m': Node, ghost x': Shape, ghost t': Shape)
    requires Half(n, x, y, g, l, r, t, m, b)
    modifies n, Cells(x), Cells(t)
    ensures Half(n, x', y, g, CancelOperands(g, l, b).0, r, t', m', CancelOperands(g, l, b).1)
    ensures forall c :: c in Cells(x') ==> c in Cells(x) || fresh(c)
    ensures forall c :: c in Cells(t') ==> c in Cells(t) || fresh(c)
    decreases Size(l) + Size(b), 4
  {
    HalfParts(n, x, y, g, l, r, t, m, b);
    hide *;
    var left;
    assert allocated(Cells(y));
    left, m', x', t' := CancelNodes(g, n.left, m, x, t, l, b);
    TrioGrowsLeft(n, Cells(x), Cells(y), Cells(t), Cells(x'), Cells(t'));
    SetLeft(n, left, g, x', y, t', m', CancelOperands(g, l, b).0, r, CancelOperands(g, l, b).1);
  }

  method CancelFirstRight(g: Gate, n: Node, m: Node, ghost x: Shape, ghost y: Shape, ghost t: Shape, ghost l: Expr,
          ghost r: Expr, ghost b: Expr)
    returns (m': Node, ghost y': Shape, ghost t': Shape)
    requires Half(n, x, y, g, l, r, t, m, b)
    modifies n, Cells(y), Cells(t)
    ensures Half(n, x, y', g, l, CancelOperands(g, r, b).0, t', m', CancelOperands(g, r, b).1)
    ensures forall c :: c in Cells(y') ==> c in Cells(y) || fresh(c)
    ensures forall c :: c in Cells(t') ==> c in Cells(t) || fresh(c)
    decreases Size(r) + Size(b), 4
  {
    HalfParts(n, x, y, g, l, r, t, m, b);
    hide *;
    var right;
    assert allocated(Cells(x));
    right, m', y', t' := CancelNodes(g, n.right, m, y, t, r, b);
    TrioGrowsRight(n, Cells(x), Cells(y), Cells(t), Cells(y'), Cells(t'));
    SetRight(n, right, g, x, y', t', m', l, CancelOperands(g, r, b).0, CancelOperands(g, r, b).1);
  }

  method CancelSecondLeft(g: Gate, n: Node, m: Node, ghost x: Shape, ghost y: Shape, ghost s: Shape, ghost l: Expr,
          ghost r: Expr, ghost a: Expr)
    returns (n': Node, ghost x': Shape, ghost s': Shape)
    requires Half(m, x, y, g, l, r, s, n, a)
    modifies m, Cells(x), Cells(s)
    ensures Half(m, x', y, g, CancelOperands(g, a, l).1, r, s', n', CancelOperands(g, a, l).0)
    ensures forall c :: c in Cells(x') ==> c in Cells(x) || fresh(c)
    ensures forall c :: c in Cells(s') ==> c in Cells(s) || fresh(c)
    decreases Size(a) + Size(l), 4
  {
    HalfParts(m, x, y, g, l, r, s, n, a);
    hide *;
    var left;
    assert allocated(Cells(y));
    n', left, s', x' := CancelNodes(g, n, m.left, s, x, a, l);
    TrioGrowsLeft(m, Cells(x), Cells(y), Cells(s), Cells(x'), Cells(s'));
    SetLeft(m, left, g, x', y, s', n', CancelOperands(g, a, l).1, r, CancelOperands(g, a, l).0);
  }

  method CancelSecondRight(g: Gate, n: Node, m: Node, ghost x: Shape, ghost y: Shape, ghost s: Shape,
          ghost l: Expr, ghost r: Expr, ghost a: Expr)
    returns (n': Node, ghost y': Shape, ghost s': Shape)
    requires Half(m, x, y, g, l, r, s, n, a)
    modifies m, Cells(y), Cells(s)
    ensures Half(m, x, y', g, l, CancelOperands(g, a, r).1, s', n', CancelOperands(g, a, r).0)
    ensures forall c :: c in Cells(y') ==> c in Cells(y) || fresh(c)
    ensures forall c :: c in Cells(s') ==> c in Cells(s) || fresh(c)
    decreases Size(a) + Size(r), 4
  {
    HalfParts(m, x, y, g, l, r, s, n, a);
    hide *;
    var right;
    assert allocated(Cells(x));
    n', right, s', y' := CancelNodes(g, n, m.right, s, y, a, r);
    TrioGrowsRight(m, Cells(x), Cells(y), Cells(s), Cells(y'), Cells(s'));
    SetRight(m, right, g, x, y', s', n', l, CancelOperands(g, a, r).1, CancelOperands(g, a, r).0);
  }

  method CancelInFirst(g: Gate, n: Node, m: Node, ghost s: Shape, ghost t: Shape, ghost a: Expr, ghost b: Expr)
    returns (m': Node, ghost s': Shape, ghost t': Shape)
    requires Pair(s, n, a, t, m, b) && n.kind == GateK(g)
    modifies Cells(s), Cells(t)
    ensures Pair(s', n, CancelOperands(g, a, b).0, t', m', CancelOperands(g, a, b).1)
    ensures forall c :: c in Cells(s') ==> c in Cells(s) || fresh(c)
    ensures forall c :: c in Cells(t') ==> c in Cells(t) || fresh(c)
    decreases Size(a) + Size(b), 0, 0
  {
    HalfStarts(n, s, a, t, m, b);
    CancelFirstCase(g, a, b);
    ghost var l1 := CancelOperands(g, a.l, b);
    ghost var r1 := CancelOperands(g, a.r, l1.1);
    hide Stands, Tree, Value, Apart, Cells, CancelOperands, Size, Half;
    ghost var x', y', t1;
    var m1;
    m1, x', t1 := CancelFirstLeft(g, n, m, s.x, s.y, t, a.l, a.r, b);
    m', y', t' := CancelFirstRight(g, n, m1, x', s.y, t1, l1.0, a.r, l1.1);
    s' := Two(n, x', y');
    HalfEnds(n, x', y', g, l1.0, r1.0, t', m', r1.1);
  }

  method CancelInSecond(g: Gate, n: Node, m: Node, ghost s: Shape, ghost t: Shape, ghost a: Expr, ghost b: Expr)
    returns (n': Node, ghost s': Shape, ghost t': Shape)
    requires Pair(s, n, a, t, m, b) && n.kind != GateK(g) && m.kind == GateK(g)
    modifies Cells(s), Cells(t)
    ensures Pair(s', n', CancelOperands(g, a, b).0, t', m, CancelOperands(g, a, b).1)
    ensures forall c :: c in Cells(s') ==> c in Cells(s) || fresh(c)
    ensures forall c :: c in Cells(t') ==> c in Cells(t) || fresh(c)
    decreases Size(a) + Size(b), 0, 0
  {
    KindIs(n, s, a);
    HalfStarts(m, t, b, s, n, a);
    CancelSecondCase(g, a, b);
    ghost var l1 := CancelOperands(g, a, b.l);
    ghost var r1 := CancelOperands(g, l1.0, b.r);
    hide Stands, Tree, Value, Apart, Cells, CancelOperands, Size, Half;
    ghost var x', y', s1;
    var n1;
    n1, x', s1 := CancelSecondLeft(g, n, m, t.x, t.y, s, b.l, b.r, a);
    n', y', s' := CancelSecondRight(g, n1, m, x', t.y, s1, l1.1, b.r, l1.0);
    t' := Two(m, x', y');
    HalfEnds(m, x', y', g, l1.1, r1.1, s', n', r1.0);
  }
}
