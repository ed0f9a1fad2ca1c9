/**
 Equality of expressions by mutual cancellation of equal operands
 (`expr_eq`, `__expr_eliminate_eq`, `expr_eliminate_eq`).
 */
module KconfigEq {
  import opened KconfigExpr

  /** Cancels equal operands of `a` and `b`, where every node other than the gate `g` counts as an
      operand. A pair of equal operands becomes a pair of neutral leaves; two equal y or n leaves stay. */
  function CancelOperands(g: Gate, a: Expr, b: Expr): (r: (Expr, Expr))
    ensures Size(r.0) <= Size(a) && Size(r.1) <= Size(b)
    decreases Size(a) + Size(b), if IsGate(g, a) || IsGate(g, b) then 0 else 3
  {
    if IsGate(g, a) then
      var (l, b1) := CancelOperands(g, a.l, b);
      var (r, b2) := CancelOperands(g, a.r, b1);
      (Bin(g, l, r), b2)
    else if IsGate(g, b) then
      var (a1, l) := CancelOperands(g, a, b.l);
      var (a2, r) := CancelOperands(g, a1, b.r);
      (a2, Bin(g, l, r))
    else if a == b && IsConstLeaf(a) then
      (a, b)
    else if ExprEq(a, b) then
      (NeutralLeaf(g), NeutralLeaf(g))
    else
      (a, b)
  }

  function CancelFirst(a: Expr, b: Expr): (r: (Expr, Expr))
    ensures Size(r.0) <= Size(a) && Size(r.1) <= Size(b)
    decreases Size(a) + Size(b), 1, 0
  {
    if a.Bin? then CancelOperands(a.op, a, b) else (a, b)
  }

  function CancelSecond(a: Expr, b: Expr): (r: (Expr, Expr))
    ensures Size(r.0) <= Size(a) && Size(r.1) <= Size(b)
    decreases Size(a) + Size(b), 1, 0
  {
    if b.Bin? && !SameType(a, b) then CancelOperands(b.op, a, b) else (a, b)
  }

  /** Whether two expressions have the same node type in the source's sense. */
  predicate SameType(a: Expr, b: Expr) {
    match (a, b)
    case (Sym(_), Sym(_)) => true
    case (Not(_), Not(_)) => true
    case (Bin(g, _, _), Bin(h, _, _)) => g == h
    case (Cmp(x, _, _), Cmp(y, _, _)) => x == y
    case (_, _) => false
  }

  /** Removes the operands common to `a` and `b`: first at the level of `a`'s gate, then, when the two
      node types still differ, at the level of `b`'s gate; y and n operands go last. */
  function EliminateEq(a: Expr, b: Expr): (r: (Expr, Expr))
    ensures Size(r.0) <= Size(a) && Size(r.1) <= Size(b)
    decreases Size(a) + Size(b), 1
  {
    var (a1, b1) := CancelFirst(a, b);
    var (a2, b2) := CancelSecond(a1, b1);
    (Yn(a2), Yn(b2))
  }

  predicate ExprEq(a: Expr, b: Expr)
    decreases Size(a) + Size(b), 2
  {
    match (a, b)
    case (Sym(s), Sym(t)) => s == t
    case (Cmp(_, _, _), Cmp(_, _, _)) => a == b
    case (Not(x), Not(y)) => ExprEq(x, y)
    case (Bin(g, _, _), Bin(h, _, _)) =>
      g == h && var (x, y) := EliminateEq(a, b); x.Sym? && x == y
    case (_, _) => false
  }

  // ---- Soundness ----

  lemma {:induction false} Regroup(g: Gate, l: Tri, r: Tri, x: Tri, y: Tri)
    ensures Apply(g, Apply(g, l, x), Apply(g, r, y)) == Apply(g, Apply(g, l, r), Apply(g, x, y))
  {
  }

  lemma {:induction false} Reassociate(g: Gate, v: Tri, x: Tri, y: Tri)
    ensures Apply(g, Apply(g, v, y), x) == Apply(g, v, Apply(g, x, y))
  {
  }

  /** What is cancelled is the same on both sides: each input is its reduced form with one common
      value `x` put back by the gate. */
  lemma {:induction false} CancelOperandsSplits(g: Gate, a: Expr, b: Expr, env: Env) returns (x: Tri)
    requires WellTyped(env)
    ensures Eval(a, env) == Apply(g, Eval(CancelOperands(g, a, b).0, env), x)
    ensures Eval(b, env) == Apply(g, Eval(CancelOperands(g, a, b).1, env), x)
    decreases Size(a) + Size(b), if IsGate(g, a) || IsGate(g, b) then 0 else 3, 0
  {
    if IsGate(g, a) {
      var (l, b1) := CancelOperands(g, a.l, b);
      var (r, b2) := CancelOperands(g, a.r, b1);
      var x1 := CancelOperandsSplits(g, a.l, b, env);
      var x2 := CancelOperandsSplits(g, a.r, b1, env);
      x := Apply(g, x1, x2);
      assert CancelOperands(g, a, b) == (Bin(g, l, r), b2);
      Regroup(g, Eval(l, env), Eval(r, env), x1, x2);
      Reassociate(g, Eval(b2, env), x1, x2);
    } else if IsGate(g, b) {
      var (a1, l) := CancelOperands(g, a, b.l);
      var (a2, r) := CancelOperands(g, a1, b.r);
      var x1 := CancelOperandsSplits(g, a, b.l, env);
      var x2 := CancelOperandsSplits(g, a1, b.r, env);
      x := Apply(g, x1, x2);
      assert CancelOperands(g, a, b) == (a2, Bin(g, l, r));
      Regroup(g, Eval(l, env), Eval(r, env), x1, x2);
      Reassociate(g, Eval(a2, env), x1, x2);
    } else if !(a == b && IsConstLeaf(a)) && ExprEq(a, b) {
      ExprEqSound(a, b, env);
      x := Eval(a, env);
    } else {
      x := Neutral(g);
    }
  }

  ghost predicate ReflectsOrder(a': Expr, b': Expr, a: Expr, b: Expr, env: Env) {
    && (Eval(a', env) <= Eval(b', env) ==> Eval(a, env) <= Eval(b, env))
    && (Eval(a', env) >= Eval(b', env) ==> Eval(a, env) >= Eval(b, env))
  }

  lemma {:induction false} CancelOperandsReflectsOrder(g: Gate, a: Expr, b: Expr, env: Env)
    requires WellTyped(env)
    ensures var (x, y) := CancelOperands(g, a, b); ReflectsOrder(x, y, a, b, env)
    decreases Size(a) + Size(b), if IsGate(g, a) || IsGate(g, b) then 0 else 3, 1
  {
    var x := CancelOperandsSplits(g, a, b, env);
  }

  /** Cancellation reflects the order in both directions: whatever order the reduced expressions have in
      an assignment, the original expressions have too. */
  lemma {:induction false} EliminateEqReflectsOrder(a: Expr, b: Expr, env: Env)
    requires WellTyped(env)
    ensures var (x, y) := EliminateEq(a, b); ReflectsOrder(x, y, a, b, env)
    decreases Size(a) + Size(b), 1
  {
    var (a1, b1) := CancelFirst(a, b);
    if a.Bin? {
      CancelOperandsReflectsOrder(a.op, a, b, env);
    }
    var (a2, b2) := CancelSecond(a1, b1);
    if b1.Bin? && !SameType(a1, b1) {
      CancelOperandsReflectsOrder(b1.op, a1, b1, env);
    }
    YnKeepsValue(a2, env);
    YnKeepsValue(b2, env);
  }

  /** Expressions reported equal have the same value in every assignment. */
  lemma {:induction false} ExprEqSound(a: Expr, b: Expr, env: Env)
    requires WellTyped(env)
    requires ExprEq(a, b)
    ensures Eval(a, env) == Eval(b, env)
    decreases Size(a) + Size(b), 2
  {
    match (a, b)
    case (Sym(s), Sym(t)) =>
    case (Cmp(_, _, _), Cmp(_, _, _)) =>
    case (Not(x), Not(y)) => ExprEqSound(x, y, env);
    case (Bin(g, _, _), Bin(h, _, _)) => EliminateEqReflectsOrder(a, b, env);
  }
}
