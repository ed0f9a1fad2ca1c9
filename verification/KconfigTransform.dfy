/**
 Pushing negation down to symbols (`expr_transform`), dropping `!= n` tests (`expr_trans_bool`) and
 guarding the constant m (`rewrite_m`).
 */
module KconfigTransform {
  import opened Options
  import opened KconfigExpr

  /** The termination measure of `Transform`: a negation weighs twice what it negates. */
  function Weight(e: Expr): (w: nat)
    ensures w >= 1
  {
    match e
    case Sym(_) => 1
    case Not(x) => 2 * Weight(x)
    case Bin(_, l, r) => 1 + Weight(l) + Weight(r)
    case Cmp(_, _, _) => 2
  }

  function Dual(g: Gate): Gate { if g == And then Or else And }

  function Opposite(rel: Relation): Relation {
    match rel
    case Equal => Unequal
    case Unequal => Equal
    case Leq => Gth
    case Geq => Lth
    case Lth => Geq
    case Gth => Leq
  }

  /** Tests of a bool symbol against y, m or n become the symbol, its negation or a constant. */
  function TransformComparison(rel: Relation, a: Symbol, b: Symbol): Expr {
    if a.stype != Boolean then Cmp(rel, a, b)
    else if rel == Equal then
      if b == SYMBOL_NO then Not(Sym(a))
      else if b == SYMBOL_MOD then Sym(SYMBOL_NO)
      else if b == SYMBOL_YES then Sym(a)
      else Cmp(rel, a, b)
    else if rel == Unequal then
      if b == SYMBOL_NO then Sym(a)
      else if b == SYMBOL_MOD then Sym(SYMBOL_YES)
      else if b == SYMBOL_YES then Not(Sym(a))
      else Cmp(rel, a, b)
    else Cmp(rel, a, b)
  }

  lemma {:induction false} DeMorganIsLighter(g: Gate, l: Expr, r: Expr)
    ensures Weight(Bin(Dual(g), Not(l), Not(r))) < Weight(Not(Bin(g, l, r)))
  {
    assert Weight(Not(Bin(g, l, r))) == 2 * Weight(Bin(g, l, r));
  }

  /** Children first, then the root; what a double negation uncovers and what De Morgan's laws produce
      is transformed once more. */
  function Transform(e: Expr): (r: Expr)
    ensures Weight(r) <= Weight(e)
    decreases Weight(e)
  {
    match e
    case Sym(_) => e
    case Cmp(rel, a, b) => TransformComparison(rel, a, b)
    case Bin(g, l, r) => Bin(g, Transform(l), Transform(r))
    case Not(x) =>
      var x' := Transform(x);
      match x'
      case Not(y) => Transform(y)
      case Cmp(rel, a, b) => Cmp(Opposite(rel), a, b)
      case Bin(g, l, r) =>
        DeMorganIsLighter(g, l, r);
        Transform(Bin(Dual(g), Not(l), Not(r)))
      case Sym(s) =>
        if s == SYMBOL_YES then Sym(SYMBOL_NO)
        else if s == SYMBOL_MOD then Sym(SYMBOL_MOD)
        else if s == SYMBOL_NO then Sym(SYMBOL_YES)
        else Not(x')
  }

  /** Negation stands only on symbols other than y, m and n, and no bool is tested against y, m or n. */
  predicate Normal(e: Expr) {
    match e
    case Sym(_) => true
    case Not(x) => x.Sym? && !IsLetter(x.s)
    case Bin(_, l, r) => Normal(l) && Normal(r)
    case Cmp(rel, a, b) => a.stype == Boolean && (rel == Equal || rel == Unequal) ==> !IsLetter(b)
  }

  lemma {:induction false} TransformIsNormal(e: Expr)
    ensures Normal(Transform(e))
    decreases Weight(e)
  {
    match e
    case Sym(_) =>
    case Cmp(rel, a, b) => assert a.stype == Boolean ==> !IsLetter(a);
    case Bin(g, l, r) => TransformIsNormal(l); TransformIsNormal(r);
    case Not(x) =>
      TransformIsNormal(x);
      var x' := Transform(x);
      match x'
      case Not(y) => TransformIsNormal(y);
      case Cmp(rel, a, b) =>
      case Bin(g, l, r) =>
        DeMorganIsLighter(g, l, r);
        TransformIsNormal(Bin(Dual(g), Not(l), Not(r)));
      case Sym(s) =>
  }

  /** What transforming a negation makes of the transformed operand. */
  function Negated(e: Expr): Expr {
    match e
    case Not(x) => x
    case Cmp(rel, a, b) => Cmp(Opposite(rel), a, b)
    case Bin(g, l, r) => Bin(Dual(g), Negated(l), Negated(r))
    case Sym(s) =>
      if s == SYMBOL_YES then Sym(SYMBOL_NO)
      else if s == SYMBOL_NO then Sym(SYMBOL_YES)
      else if s == SYMBOL_MOD then e
      else Not(e)
  }

  /** Negation is pushed down to the leaves, gates change and comparisons turn round, and doing so twice undoes it. */
  lemma {:induction false} NegationIs(x: Expr)
    ensures Transform(Not(x)) == Negated(Transform(x))
    ensures Negated(Negated(Transform(x))) == Transform(x)
    decreases Weight(x)
  {
    TransformIsNormal(x);
    NormalNegation(Transform(x));
    NegationOfTransformed(x, Transform(x));
  }

  lemma {:induction false} NegationOfTransformed(x: Expr, y: Expr)
    requires y == Transform(x)
    ensures Transform(Not(x)) == Transform(Not(y))
  {
    TransformIsNormal(x);
    TransformFixesNormal(y);
    match y
    case Bin(g, l, r) =>
      assert Transform(Not(x)) == Transform(Bin(Dual(g), Not(l), Not(r)));
      assert Transform(Not(y)) == Transform(Bin(Dual(g), Not(l), Not(r)));
    case Not(z) => assert Transform(Not(x)) == Transform(z) == Transform(Not(y));
    case _ =>
  }

  lemma {:induction false} NormalNegation(e: Expr)
    requires Normal(e)
    ensures Transform(Not(e)) == Negated(e) && Negated(Negated(e)) == e
  {
    TransformFixesNormal(e);
    match e
    case Not(x) => TransformFixesNormal(x);
    case Bin(g, l, r) =>
      NormalNegation(l);
      NormalNegation(r);
      assert Transform(Not(e)) == Transform(Bin(Dual(g), Not(l), Not(r)));
    case _ => assert Transform(e) == e;
  }

  /** A normal form is left alone, so transforming twice is transforming once. */
  lemma {:induction false} TransformFixesNormal(e: Expr)
    requires Normal(e)
    ensures Transform(e) == e
  {
    match e
    case Bin(_, l, r) => TransformFixesNormal(l); TransformFixesNormal(r);
    case _ =>
  }

  lemma {:induction false} TransformComparisonKeepsValue(rel: Relation, a: Symbol, b: Symbol, env: Env)
    requires WellTyped(env)
    ensures Eval(TransformComparison(rel, a, b), env) == Eval(Cmp(rel, a, b), env)
  {
  }

  lemma {:induction false} DeMorgan(g: Gate, x: Tri, y: Tri)
    ensures 2 - Apply(g, x, y) == Apply(Dual(g), 2 - x, 2 - y)
  {
  }

  lemma {:induction false} TransformKeepsValue(e: Expr, env: Env)
    requires WellTyped(env)
    ensures Eval(Transform(e), env) == Eval(e, env)
    decreases Weight(e)
  {
    match e
    case Sym(_) =>
    case Cmp(rel, a, b) => TransformComparisonKeepsValue(rel, a, b, env);
    case Bin(g, l, r) => TransformKeepsValue(l, env); TransformKeepsValue(r, env);
    case Not(x) =>
      TransformKeepsValue(x, env);
      var x' := Transform(x);
      match x'
      case Not(y) => TransformKeepsValue(y, env);
      case Cmp(rel, a, b) =>
      case Bin(g, l, r) =>
        DeMorganIsLighter(g, l, r);
        DeMorgan(g, Eval(l, env), Eval(r, env));
        TransformKeepsValue(Bin(Dual(g), Not(l), Not(r)), env);
      case Sym(s) =>
  }

  // ---- expr_trans_bool ----

  function TransBool(e: Expr): Expr {
    match e
    case Bin(g, l, r) => Bin(g, TransBool(l), TransBool(r))
    case Not(x) => Not(TransBool(x))
    case Cmp(rel, a, b) => if rel == Unequal && a.stype == Tristate && b == SYMBOL_NO then Sym(a) else e
    case Sym(_) => e
  }

  /** No tristate is compared with n by `!=`. */
  predicate Shortened(e: Expr) {
    match e
    case Bin(_, l, r) => Shortened(l) && Shortened(r)
    case Not(x) => Shortened(x)
    case Cmp(rel, a, b) => !(rel == Unequal && a.stype == Tristate && b == SYMBOL_NO)
    case Sym(_) => true
  }

  /** All such tests are dropped, and an expression without any is left alone. */
  lemma {:induction false} TransBoolShortens(e: Expr)
    ensures Shortened(TransBool(e)) && (Shortened(e) ==> TransBool(e) == e)
  {
    match e
    case Bin(_, l, r) => TransBoolShortens(l); TransBoolShortens(r);
    case Not(x) => TransBoolShortens(x);
    case _ =>
  }

  /** Negation stands only on symbols. */
  predicate NegatesSymbols(e: Expr) {
    match e
    case Not(x) => x.Sym?
    case Bin(_, l, r) => NegatesSymbols(l) && NegatesSymbols(r)
    case _ => true
  }

  /** Dropping `!= n` can turn y into m, but never changes whether the value is n. */
  lemma {:induction false} TransBoolKeepsNonNo(e: Expr, env: Env)
    requires WellTyped(env) && NegatesSymbols(e)
    ensures Eval(TransBool(e), env) == NO <==> Eval(e, env) == NO
    ensures Eval(TransBool(e), env) <= Eval(e, env)
  {
    if e.Bin? {
      TransBoolKeepsNonNo(e.l, env);
      TransBoolKeepsNonNo(e.r, env);
    }
  }

  /** Under a negated comparison the law fails: !(A != n) and !A differ on n when A is m. */
  lemma {:induction false} TransBoolNeedsNegatedSymbols(a: Symbol, env: Env)
    requires WellTyped(env) && a.stype == Tristate && env.tri(a) == MOD
    ensures var e := Not(Cmp(Unequal, a, SYMBOL_NO));
            Eval(e, env) == NO && Eval(TransBool(e), env) == MOD
  {
    assert SYMBOL_NO.denotes == Some(NO);
  }

  // ---- rewrite_m ----

  function RewriteM(e: Expr, modules: Symbol): Expr {
    match e
    case Not(x) => Not(RewriteM(x, modules))
    case Bin(g, l, r) => Bin(g, RewriteM(l, modules), RewriteM(r, modules))
    case Sym(s) => if s == SYMBOL_MOD then Bin(And, e, Sym(modules)) else e
    case Cmp(_, _, _) => e
  }

  /** The assignment in which m stands for m && MODULES. */
  function GuardMod(modules: Symbol, env: Env): Env {
    var tri := env.tri;
    env.(tri := (s: Symbol) => if s == SYMBOL_MOD then Min(MOD, tri(modules)) else tri(s))
  }

  /** The rewritten expression reads every m as m && MODULES, and nothing else changes. */
  lemma {:induction false} RewriteMValue(e: Expr, modules: Symbol, env: Env)
    requires WellTyped(env)
    ensures Eval(RewriteM(e, modules), env) == Eval(e, GuardMod(modules, env))
  {
    match e
    case Not(x) => RewriteMValue(x, modules, env);
    case Bin(_, l, r) => RewriteMValue(l, modules, env); RewriteMValue(r, modules, env);
    case _ =>
  }
}
