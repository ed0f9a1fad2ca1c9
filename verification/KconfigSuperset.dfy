/**
 The passes of `menu_finalize` over dependency nodes: propagating a parent's dependency and deciding on an
 automatic submenu, down to the nodes they allocate and overwrite.
 */
module KconfigSuperset {
  import opened Options
  import opened KconfigExpr
  import opened KconfigEq
  import opened KconfigDups
  import opened KconfigTransform
  import opened KconfigSubmenu
  import opened KconfigNodes
  import opened KconfigSlots

  /** A dependency that may be absent. */
  ghost predicate Dep(s: Shape, n: Node?, d: Option<Expr>)
    reads Cells(s)
  {
    if n == null then d == None else d.Some? && Stands(s, n, d.value)
  }

  // ---- rewrite_m ----

  /** `rewrite_m`: the node that takes the place of `n`. */
  method RewriteNodes(n: Node, modules: Symbol, ghost s: Shape, ghost e: Expr) returns (n': Node, ghost s': Shape)
    requires Stands(s, n, e)
    modifies Cells(s)
    ensures Stands(s', n', RewriteM(e, modules)) && (forall c :: c in Cells(s') ==> c in Cells(s) || fresh(c))
    decreases Size(e), 0
  {
    KindIs(n, s, e);
    n', s' := n, s;
    if n.kind.GateK? {
      GateParts(n, s, e);
      s' := RewriteOperands(n, modules, s.x, s.y, n.kind.g, e.l, e.r);
    } else if n.kind == NotK {
      var x;
      ghost var x';
      x, x' := RewriteNodes(n.left, modules, s.x, e.e);
      n.left := x;
      NotJoined(n, x', RewriteM(e.e, modules));
      s' := One(n, x');
    } else if n.kind == SymK && n.a == SYMBOL_MOD {
      n', s' := GuardNode(n, modules, s);
    }
  }

  method RewriteOperands(n: Node, modules: Symbol, ghost x: Shape, ghost y: Shape, g: Gate, ghost l: Expr,
          ghost r: Expr)
    returns (ghost s': Shape)
    requires Operands(n, x, y, g, l, r)
    modifies n, Cells(x), Cells(y)
    ensures Stands(s', n, Bin(g, RewriteM(l, modules), RewriteM(r, modules)))
    ensures forall c :: c in Cells(s') ==> c == n || c in Cells(x) || c in Cells(y) || fresh(c)
    decreases Size(l) + Size(r)
  {
    hide Stands, Cells, RewriteM, Size;
    var left, right;
    ghost var x', y';
    assert allocated(Cells(y));
    left, x' := RewriteNodes(n.left, modules, x, l);
    n.left := left;
    assert allocated(Cells(x'));
    right, y' := RewriteNodes(n.right, modules, y, r);
    assert allocated(Cells(y'));
    n.right := right;
    s' := Two(n, x', y');
    GateJoined(n, x', y', g, RewriteM(l, modules), RewriteM(r, modules));
  }

  /** `m && MODULES`. */
  method GuardNode(n: Node, modules: Symbol, ghost s: Shape) returns (n': Node, ghost s': Shape)
    requires Stands(s, n, Sym(SYMBOL_MOD))
    ensures Stands(s', n', Bin(And, Sym(SYMBOL_MOD), Sym(modules)))
    ensures forall c :: c in Cells(s') ==> c in Cells(s) || fresh(c)
  {
    var leaf := NewLeaf(modules);
    StandsCells(leaf, Sym(modules));
    n', s' := AndNodes(n, leaf, s, Leaf(leaf), Sym(SYMBOL_MOD), Sym(modules));
  }

  method AndNodes(n: Node, m: Node, ghost s: Shape, ghost t: Shape, ghost a: Expr, ghost b: Expr)
    returns (c: Node, ghost s': Shape)
    requires Pair(s, n, a, t, m, b)
    ensures Stands(s', c, Bin(And, a, b)) && (forall k :: k in Cells(s') ==> k in Cells(s) || k in Cells(t) || fresh(k))
  {
    hide Stands, Cells;
    assert allocated(Cells(s)) && allocated(Cells(t));
    c := new Node.Inner(GateK(And), n, m);
    s' := Two(c, s, t);
    GateJoined(c, s, t, And, a, b);
  }

  // ---- expr_trans_compare ----

  /** `expr_trans_compare`: a new tree; `e` itself is only read. */
  method CompareNodes(n: Node, rel: Relation, sym: Symbol, ghost s: Shape, ghost e: Expr)
    returns (c: Node, ghost s': Shape)
    requires Stands(s, n, e) && (rel == Equal || rel == Unequal) && (sym == SYMBOL_YES || sym == SYMBOL_NO)
    ensures Stands(s', c, TransCompare(Some(e), rel, sym)) && (forall k :: k in Cells(s') ==> fresh(k))
    decreases Size(e), 0
  {
    KindIs(n, s, e);
    if n.kind.GateK? {
      GateParts(n, s, e);
      c, s' := CompareOperands(n, sym, s.x, s.y, n.kind.g, e.l, e.r);
      if rel == Unequal {
        c, s' := NegateNode(c, s', Bin(if sym == SYMBOL_NO then Dual(e.op) else e.op,
                                       TransCompare(Some(e.l), Equal, sym), TransCompare(Some(e.r), Equal, sym)));
      }
    } else if n.kind == NotK {
      c, s' := CompareNodes(n.left, if rel == Equal then Unequal else Equal, sym, s.x, e.e);
    } else if n.kind.CmpK? {
      c, s' := CopyNodes(n, s, e);
      if (rel == Equal) != (sym == SYMBOL_YES) {
        c, s' := NegateNode(c, s', e);
      }
    } else {
      c := AllocLeaf(Cmp(rel, n.a, sym));
      StandsCells(c, Cmp(rel, n.a, sym));
      s' := Leaf(c);
    }
  }

  method CompareOperands(n: Node, sym: Symbol, ghost x: Shape, ghost y: Shape, g: Gate, ghost l: Expr, ghost r: Expr)
    returns (c: Node, ghost s': Shape)
    requires Operands(n, x, y, g, l, r) && (sym == SYMBOL_YES || sym == SYMBOL_NO)
    ensures Stands(s', c, Bin(if sym == SYMBOL_NO then Dual(g) else g,
                              TransCompare(Some(l), Equal, sym), TransCompare(Some(r), Equal, sym)))
    ensures forall k :: k in Cells(s') ==> fresh(k)
    decreases Size(l) + Size(r)
  {
    hide Stands, Cells, TransCompare, Size;
    var e1, e2;
    ghost var x', y';
    assert allocated(Cells(y));
    e1, x' := CompareNodes(n.left, Equal, sym, x, l);
    assert allocated(Cells(x'));
    e2, y' := CompareNodes(n.right, Equal, sym, y, r);
    assert allocated(Cells(y'));
    var gate := if sym == SYMBOL_NO then Dual(g) else g;
    c := new Node.Inner(GateK(gate), e1, e2);
    s' := Two(c, x', y');
    GateJoined(c, x', y', gate, TransCompare(Some(l), Equal, sym), TransCompare(Some(r), Equal, sym));
  }

  method NegateNode(n: Node, ghost s: Shape, ghost e: Expr) returns (c: Node, ghost s': Shape)
    requires Stands(s, n, e)
    ensures Stands(s', c, Not(e)) && (forall k :: k in Cells(s') ==> k in Cells(s) || fresh(k))
  {
    hide Stands, Cells;
    assert allocated(Cells(s));
    c := new Node.Inner(NotK, n, null);
    NotJoined(c, s, e);
    s' := One(c, s);
  }

  // ---- Propagation ----

  /** A copy of the parent's dependency and the child's own, simplified (first loop of `menu_finalize`). */
  method PropagateNodes(parentDep: Node?, dep: Node?, modules: Symbol, ghost s: Shape, ghost t: Shape,
          ghost a: Option<Expr>, ghost b: Option<Expr>)
    returns (r: Node?, ghost s': Shape)
    requires Dep(s, parentDep, a) && Dep(t, dep, b) && Cells(s) !! Cells(t)
    modifies if dep == null then {} else Cells(t)
    ensures Dep(s', r, Propagate(a, b, modules)) && Dep(s, parentDep, a)
    ensures r != null ==> forall c :: c in Cells(s') ==> (dep != null && c in Cells(t)) || fresh(c)
  {
    var own := dep;
    ghost var t' := t;
    assert allocated(Cells(s)) && allocated(Cells(t));
    if own != null {
      own, t' := RewriteNodes(own, modules, t, b.value);
      own, t' := TransformNodes(own, t', RewriteM(b.value, modules));
    }
    r, s' := JoinDeps(parentDep, own, s, t', a, if b.None? then None else Some(Transform(RewriteM(b.value, modules))));
  }

  method JoinDeps(parentDep: Node?, own: Node?, ghost s: Shape, ghost t: Shape, ghost a: Option<Expr>,
          ghost b: Option<Expr>)
    returns (r: Node?, ghost s': Shape)
    requires Dep(s, parentDep, a) && Dep(t, own, b)
    requires own != null && parentDep != null ==> Cells(s) !! Cells(t)
    modifies if own == null then {} else Cells(t)
    ensures Dep(s', r, if AllocAnd(a, b).None? then None else Some(EliminateDups(AllocAnd(a, b).value)))
    ensures parentDep != null ==> Stands(s, parentDep, a.value)
    ensures r != null ==> forall c :: c in Cells(s') ==> (own != null && c in Cells(t)) || fresh(c)
  {
    hide Stands, Cells, EliminateDups;
    r, s' := own, t;
    assert allocated(Cells(s)) && allocated(Cells(t));
    if parentDep != null {
      var copy;
      ghost var x;
      copy, x := CopyNodes(parentDep, s, a.value);
      assert allocated(Cells(x));
      r, s' := copy, x;
      if own != null {
        r, s' := AndNodes(copy, own, x, t, a.value, b.value);
      }
    }
    if r != null {
      s' := EliminateDupsNodes(r, s', AllocAnd(a, b).value);
    }
  }

  /** The condition of a prompt: propagated, and without `!= n` for a symbol that is not a tristate. */
  method ConditionNodes(menuDep: Node?, visible: Node?, modules: Symbol, tristate: bool, ghost s: Shape,
          ghost t: Shape, ghost a: Option<Expr>, ghost b: Option<Expr>)
    returns (r: Node?, ghost s': Shape)
    requires Dep(s, menuDep, a) && Dep(t, visible, b) && Cells(s) !! Cells(t)
    modifies if visible == null then {} else Cells(t)
    ensures var c := Propagate(a, b, modules);
            Dep(s', r, if c.Some? && !tristate then Some(TransBool(c.value)) else c)
  {
    hide Stands, Cells, Propagate, TransBool;
    r, s' := PropagateNodes(menuDep, visible, modules, s, t, a, b);
    if r != null && !tristate {
      s' := TransBoolNodes(r, s', Propagate(a, b, modules).value);
    }
  }

  // ---- The decision on a submenu ----

  /** `expr_contains_symbol`. */
  function ContainsNode(n: Node, sym: Symbol, ghost s: Shape): (r: bool)
    requires Tree(s, n)
    reads Cells(s)
    ensures r == ContainsSymbol(Value(s), sym)
    decreases s
  {
    match n.kind
    case SymK => n.a == sym
    case CmpK(_) => n.a == sym || n.b == sym
    case NotK => ContainsNode(n.left, sym, s.x)
    case GateK(_) => ContainsNode(n.left, sym, s.x) || ContainsNode(n.right, sym, s.y)
  }

  /** `expr_depends_symbol`. */
  function DependsNode(n: Node, sym: Symbol, ghost s: Shape): (r: bool)
    requires Tree(s, n)
    reads Cells(s)
    ensures r == DependsSymbol(Value(s), sym)
    decreases s
  {
    match n.kind
    case SymK => n.a == sym
    case CmpK(rel) =>
      || (rel == Equal && n.a == sym && (n.b == SYMBOL_YES || n.b == SYMBOL_MOD))
      || (rel == Unequal && n.a == sym && n.b == SYMBOL_NO)
    case NotK => false
    case GateK(g) => g == And && (DependsNode(n.left, sym, s.x) || DependsNode(n.right, sym, s.y))
  }

  lemma {:induction false} StandsTree(s: Shape, n: Node, e: Expr)
    requires Stands(s, n, e)
    ensures Tree(s, n) && Value(s) == e
  {
  }

  /** The form `d != n` of a dependency, in new nodes. */
  method NonNoNodes(dep: Node?, ghost s: Shape, ghost d: Option<Expr>) returns (n: Node, ghost s': Shape)
    requires Dep(s, dep, d)
    ensures Stands(s', n, NonNoForm(d)) && (forall c :: c in Cells(s') ==> fresh(c))
  {
    hide Stands, Cells, EliminateDups, Transform;
    if dep == null {
      n := NewLeaf(SYMBOL_NO);
      StandsCells(n, Sym(SYMBOL_NO));
      n, s' := NegateNode(n, Leaf(n), Sym(SYMBOL_NO));
    } else {
      n, s' := CompareNodes(dep, Unequal, SYMBOL_NO, s, d.value);
    }
    n, s' := TransformNodes(n, s', TransCompare(d, Unequal, SYMBOL_NO));
    s' := EliminateDupsNodes(n, s', Transform(TransCompare(d, Unequal, SYMBOL_NO)));
  }

  /** The test for one item after a symbol, with `base` in the form `!= n`. */
  method GoesBelowNodes(base: Node, dep: Node?, sym: Symbol, ghost s: Shape, ghost t: Shape, ghost a: Option<Expr>,
          ghost d: Option<Expr>)
    returns (below: bool)
    requires Stands(s, base, NonNoForm(a)) && Dep(t, dep, d)
    ensures below == GoesBelow(a, d, sym)
  {
    if dep == null {
      return false;
    }
    StandsTree(t, dep, d.value);
    if !ContainsNode(dep, sym, t) {
      return false;
    }
    if DependsNode(dep, sym, t) {
      return true;
    }
    below := IsSuperset(base, dep, s, t, a, d);
  }

  method IsSuperset(base: Node, dep: Node?, ghost s: Shape, ghost t: Shape, ghost a: Option<Expr>,
          ghost d: Option<Expr>)
    returns (superset: bool)
    requires Stands(s, base, NonNoForm(a)) && Dep(t, dep, d)
    ensures superset == (EliminateEq(NonNoForm(d), NonNoForm(a)).1 == Sym(SYMBOL_YES))
  {
    hide Stands, Cells, NonNoForm, EliminateEq;
    assert allocated(Cells(s));
    var x, y;
    ghost var s', t';
    x, t' := NonNoNodes(dep, t, d);
    assert allocated(Cells(t'));
    y, s' := CopyNodes(base, s, NonNoForm(a));
    x, y, t', s' := EliminateEqNodes(x, y, t', s', NonNoForm(d), NonNoForm(a));
    KindIs(y, s', EliminateEq(NonNoForm(d), NonNoForm(a)).1);
    superset := y.kind == SymK && y.a == SYMBOL_YES;
  }
}
