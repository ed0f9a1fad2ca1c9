/**
 Kconfig dependency expressions and their tristate meaning.

 A dependency is a tree over symbols and comparisons, combined by `&&`, `||` and `!`.
 Its value is one of n, m, y, with `&&` the minimum, `||` the maximum and `!` the
 reflection 2 - x.
 */
module KconfigExpr {
  import opened Options

  /** The three values n < m < y, as the numbers 0, 1, 2 the program uses. */
  type Tri = t: int | 0 <= t <= 2

  const NO: Tri := 0
  const MOD: Tri := 1
  const YES: Tri := 2

  datatype SymbolType = Unknown | Boolean | Tristate | Int | Hex | Str

  /** A symbol's fixed part. `denotes` is meaningful for constants: comparing a bool or tristate
      symbol with the constant finds them equal exactly at that value. The letters y, m and n
      denote themselves; a numeric constant such as "0" denotes the value with that number,
      because both sides of a comparison are then read as numbers. */
  datatype Symbol = Symbol(id: nat, stype: SymbolType, isConst: bool, denotes: Option<Tri>)

  const SYMBOL_YES: Symbol := Symbol(0, Unknown, true, Some(YES))
  const SYMBOL_MOD: Symbol := Symbol(1, Unknown, true, Some(MOD))
  const SYMBOL_NO: Symbol := Symbol(2, Unknown, true, Some(NO))

  /** One of the constants y, m and n. */
  predicate IsLetter(s: Symbol) { s == SYMBOL_YES || s == SYMBOL_MOD || s == SYMBOL_NO }

  datatype Gate = And | Or

  datatype Relation = Equal | Unequal | Lth | Leq | Gth | Geq

  datatype Expr =
    | Sym(s: Symbol)
    | Not(e: Expr)
    | Bin(op: Gate, l: Expr, r: Expr)
    | Cmp(rel: Relation, a: Symbol, b: Symbol)

  /** An assignment: the tristate value of every symbol, and the sign of every comparison. */
  datatype Env = Env(tri: Symbol -> Tri, cmp: (Symbol, Symbol) -> int)

  /** What evaluating symbols guarantees about an assignment. */
  ghost predicate WellTyped(env: Env) {
    && env.tri(SYMBOL_YES) == YES
    && env.tri(SYMBOL_MOD) == MOD
    && env.tri(SYMBOL_NO) == NO
    && (forall s: Symbol :: s.stype == Boolean ==> env.tri(s) != MOD)
    && (forall s: Symbol, c: Symbol ::
          (s.stype == Boolean || s.stype == Tristate) && c.isConst ==>
            (env.cmp(s, c) == 0 <==> c.denotes == Some(env.tri(s))))
    && (forall s: Symbol, c: Symbol :: IsLetter(s) && IsLetter(c) ==> (env.cmp(s, c) == 0 <==> s == c))
  }

  function Min(x: Tri, y: Tri): Tri { if x < y then x else y }

  function Max(x: Tri, y: Tri): Tri { if x > y then x else y }

  function Apply(g: Gate, x: Tri, y: Tri): Tri {
    match g
    case And => Min(x, y)
    case Or => Max(x, y)
  }

  lemma {:induction false} ApplyAssociates(g: Gate, x: Tri, y: Tri, z: Tri)
    ensures Apply(g, Apply(g, x, y), z) == Apply(g, x, Apply(g, y, z))
  {
  }

  lemma {:induction false} ApplyCommutes(g: Gate, x: Tri, y: Tri)
    ensures Apply(g, x, y) == Apply(g, y, x)
  {
  }

  function Neutral(g: Gate): Tri { if g == And then YES else NO }

  function Holds(rel: Relation, sign: int): bool {
    match rel
    case Equal => sign == 0
    case Unequal => sign != 0
    case Lth => sign < 0
    case Leq => sign <= 0
    case Gth => sign > 0
    case Geq => sign >= 0
  }

  function OfBool(b: bool): Tri { if b then YES else NO }

  /** The value of an expression in an assignment (`expr_calc_value`). */
  function Eval(e: Expr, env: Env): Tri {
    match e
    case Sym(s) => env.tri(s)
    case Not(x) => 2 - Eval(x, env)
    case Bin(op, l, r) => Apply(op, Eval(l, env), Eval(r, env))
    case Cmp(rel, a, b) => OfBool(Holds(rel, env.cmp(a, b)))
  }

  function Size(e: Expr): nat {
    match e
    case Sym(_) => 1
    case Not(x) => 1 + Size(x)
    case Bin(_, l, r) => 1 + Size(l) + Size(r)
    case Cmp(_, _, _) => 1
  }

  /** A leaf with the neutral value of a gate: y under `&&`, n under `||`. */
  function NeutralLeaf(g: Gate): Expr { Sym(if g == And then SYMBOL_YES else SYMBOL_NO) }

  /** A leaf that decides a gate: n under `&&`, y under `||`. */
  function AbsorbingLeaf(g: Gate): Expr { Sym(if g == And then SYMBOL_NO else SYMBOL_YES) }

  predicate IsGate(g: Gate, e: Expr) { e.Bin? && e.op == g }

  /** A dependency that may be absent; an absent one is y. */
  function EvalDep(d: Option<Expr>, env: Env): Tri {
    match d
    case None => YES
    case Some(e) => Eval(e, env)
  }

  function AllocAnd(d1: Option<Expr>, d2: Option<Expr>): Option<Expr> {
    if d1.None? then d2 else if d2.None? then d1 else Some(Bin(And, d1.value, d2.value))
  }

  predicate ContainsSymbol(e: Expr, s: Symbol) {
    match e
    case Sym(x) => x == s
    case Not(x) => ContainsSymbol(x, s)
    case Bin(_, l, r) => ContainsSymbol(l, s) || ContainsSymbol(r, s)
    case Cmp(_, a, b) => a == s || b == s
  }

  // ---- Removing y and n operands (expr_eliminate_yn) ----

  function Yn(e: Expr): (r: Expr)
    ensures Size(r) <= Size(e)
    ensures HasConst(e) ==> Size(r) < Size(e)
  {
    match e
    case Bin(g, l, r) =>
      var l', r' := Yn(l), Yn(r);
      if l' == AbsorbingLeaf(g) then AbsorbingLeaf(g)
      else if l' == NeutralLeaf(g) then r'
      else if r' == AbsorbingLeaf(g) then AbsorbingLeaf(g)
      else if r' == NeutralLeaf(g) then l'
      else Bin(g, l', r')
    case _ => e
  }

  /** Some `&&`/`||` node, reachable through such nodes, has the operand y or n. */
  predicate HasConst(e: Expr) {
    e.Bin? && (IsConstLeaf(e.l) || IsConstLeaf(e.r) || HasConst(e.l) || HasConst(e.r))
  }

  predicate IsConstLeaf(e: Expr) { e == Sym(SYMBOL_YES) || e == Sym(SYMBOL_NO) }

  lemma {:induction false} YnKeepsValue(e: Expr, env: Env)
    requires WellTyped(env)
    ensures Eval(Yn(e), env) == Eval(e, env)
  {
    if e.Bin? {
      YnKeepsValue(e.l, env);
      YnKeepsValue(e.r, env);
    }
  }

  /** The result has no y or n operand left on any `&&`/`||` node. */
  lemma {:induction false} YnRemovesConstants(e: Expr)
    ensures !HasConst(Yn(e))
  {
    if e.Bin? {
      YnRemovesConstants(e.l);
      YnRemovesConstants(e.r);
    }
  }
}
