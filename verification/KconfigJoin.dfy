/**
 Joining two operands of an `&&` or `||` into one (`expr_join_or`, `expr_join_and`).
 */
module KconfigJoin {
  import opened Options
  import opened KconfigExpr
  import opened KconfigEq

  /** The symbol a first operand is about, if it has a shape the rules know. */
  function FirstSubject(e: Expr): Option<Symbol> {
    match e
    case Sym(s) => Some(s)
    case Cmp(rel, s, _) => if rel == Equal || rel == Unequal then Some(s) else None
    case Not(Sym(s)) => Some(s)
    case Not(Cmp(rel, s, _)) => if rel == Equal || rel == Unequal then Some(s) else None
    case _ => None
  }

  /** The symbol a second operand is about; here a negation must be of a symbol. */
  function SecondSubject(e: Expr): Option<Symbol> {
    match e
    case Sym(s) => Some(s)
    case Cmp(rel, s, _) => if rel == Equal || rel == Unequal then Some(s) else None
    case Not(Sym(s)) => Some(s)
    case _ => None
  }

  /** The common symbol of two operands when it is a bool or a tristate. */
  function CommonSubject(a: Expr, b: Expr): (r: Option<Symbol>)
    ensures r.Some? ==>
              FirstSubject(a) == SecondSubject(b) == r && (r.value.stype == Boolean || r.value.stype == Tristate)
  {
    var s, t := FirstSubject(a), SecondSubject(b);
    if s.Some? && s == t && (s.value.stype == Boolean || s.value.stype == Tristate) then s else None
  }

  predicate Is(e: Expr, rel: Relation, c: Symbol) { e.Cmp? && e.rel == rel && e.b == c }

  /** The two operands are comparisons `rel` with `c` and with `d`, in either order. */
  predicate Both(a: Expr, b: Expr, rel: Relation, c: Symbol, d: Symbol) {
    (Is(a, rel, c) && Is(b, rel, d)) || (Is(a, rel, d) && Is(b, rel, c))
  }

  /** One operand is the symbol itself and the other the comparison `rel` with `c`. */
  predicate SymbolAnd(a: Expr, b: Expr, rel: Relation, c: Symbol) {
    (a.Sym? && Is(b, rel, c)) || (b.Sym? && Is(a, rel, c))
  }

  predicate IsNotSymbol(e: Expr) { e.Not? && e.e.Sym? }

  /** The rules for two operands of `||` that are not equal. */
  function OrRule(a: Expr, b: Expr): Option<Expr> {
    match CommonSubject(a, b)
    case None => None
    case Some(s) =>
      if s.stype == Tristate && Both(a, b, Equal, SYMBOL_YES, SYMBOL_MOD) then
        Some(Cmp(Unequal, s, SYMBOL_NO))
      else if s.stype == Tristate && Both(a, b, Equal, SYMBOL_YES, SYMBOL_NO) then
        Some(Cmp(Unequal, s, SYMBOL_MOD))
      else if s.stype == Tristate && Both(a, b, Equal, SYMBOL_MOD, SYMBOL_NO) then
        Some(Cmp(Unequal, s, SYMBOL_YES))
      else if s.stype == Boolean && ((IsNotSymbol(a) && b.Sym?) || (IsNotSymbol(b) && a.Sym?)) then
        Some(Sym(SYMBOL_YES))
      else None
  }

  function JoinOr(a: Expr, b: Expr): Option<Expr> { if ExprEq(a, b) then Some(a) else OrRule(a, b) }

  /** The rules for two operands of `&&` that are not equal. */
  function AndRule(a: Expr, b: Expr): Option<Expr> {
    match CommonSubject(a, b)
    case None => None
    case Some(s) =>
      if SymbolAnd(a, b, Equal, SYMBOL_YES) then Some(Cmp(Equal, s, SYMBOL_YES))
      else if SymbolAnd(a, b, Unequal, SYMBOL_NO) then Some(Sym(s))
      else if SymbolAnd(a, b, Unequal, SYMBOL_MOD) then Some(Cmp(Equal, s, SYMBOL_YES))
      else if s.stype != Tristate then None
      else if EqualUnequalConstants(a, b) then
        Some(if a.b != b.b then Cmp(Equal, s, a.b) else Sym(SYMBOL_NO))
      else if EqualUnequalConstants(b, a) then
        Some(if a.b != b.b then Cmp(Equal, s, b.b) else Sym(SYMBOL_NO))
      else if Both(a, b, Unequal, SYMBOL_YES, SYMBOL_NO) then Some(Cmp(Equal, s, SYMBOL_MOD))
      else if Both(a, b, Unequal, SYMBOL_YES, SYMBOL_MOD) then Some(Cmp(Equal, s, SYMBOL_NO))
      else if Both(a, b, Unequal, SYMBOL_MOD, SYMBOL_NO) then Some(Cmp(Equal, s, SYMBOL_YES))
      else None
  }

  function JoinAnd(a: Expr, b: Expr): Option<Expr> { if ExprEq(a, b) then Some(a) else AndRule(a, b) }

  predicate EqualUnequalConstants(a: Expr, b: Expr) {
    a.Cmp? && b.Cmp? && a.rel == Equal && b.rel == Unequal && a.b.isConst && b.b.isConst
  }

  function Join(g: Gate, a: Expr, b: Expr): Option<Expr> {
    if g == Or then JoinOr(a, b) else JoinAnd(a, b)
  }

  // ---- What joining keeps ----

  lemma {:induction false} JoinShape(g: Gate, a: Expr, b: Expr)
    requires Join(g, a, b).Some? && !IsGate(g, a)
    ensures var j := Join(g, a, b).value;
            !IsGate(g, j) && 1 + Size(j) <= Size(a) + Size(b)
  {
  }

  lemma {:induction false} JoinOrKeepsValue(a: Expr, b: Expr, env: Env)
    requires WellTyped(env) && JoinOr(a, b).Some?
    ensures Eval(JoinOr(a, b).value, env) == Max(Eval(a, env), Eval(b, env))
  {
    if ExprEq(a, b) {
      ExprEqSound(a, b, env);
    }
  }

  // ---- What is joined ----

  /** The letter that is neither `c` nor `d`. */
  function Third(c: Symbol, d: Symbol): Symbol {
    if c != SYMBOL_YES && d != SYMBOL_YES then SYMBOL_YES
    else if c != SYMBOL_MOD && d != SYMBOL_MOD then SYMBOL_MOD
    else SYMBOL_NO
  }

  /** Two values of a tristate exclude the third, and two exclusions leave it. */
  lemma {:induction false} LettersJoin(s: Symbol, c: Symbol, d: Symbol)
    requires s.stype == Tristate && IsLetter(c) && IsLetter(d) && c != d
    ensures JoinOr(Cmp(Equal, s, c), Cmp(Equal, s, d)) == Some(Cmp(Unequal, s, Third(c, d)))
    ensures JoinAnd(Cmp(Unequal, s, c), Cmp(Unequal, s, d)) == Some(Cmp(Equal, s, Third(c, d)))
  {
  }

  /** Being one constant implies not being another, and contradicts not being itself. */
  lemma {:induction false} ConstantsJoin(s: Symbol, c: Symbol, d: Symbol)
    requires s.stype == Tristate && c.isConst && d.isConst
    ensures var (x, y) := (Cmp(Equal, s, c), Cmp(Unequal, s, d));
            JoinAnd(x, y) == JoinAnd(y, x) == Some(if c == d then Sym(SYMBOL_NO) else Cmp(Equal, s, c))
  {
  }

  /** A bool or tristate and one of its tests, in either order. */
  lemma {:induction false} SymbolJoins(s: Symbol)
    requires s.stype == Boolean || s.stype == Tristate
    ensures var (x, yes) := (Sym(s), Cmp(Equal, s, SYMBOL_YES)); JoinAnd(x, yes) == JoinAnd(yes, x) == Some(yes)
    ensures var (x, y) := (Sym(s), Cmp(Unequal, s, SYMBOL_NO)); JoinAnd(x, y) == JoinAnd(y, x) == Some(x)
    ensures var (x, y) := (Sym(s), Cmp(Unequal, s, SYMBOL_MOD));
            JoinAnd(x, y) == JoinAnd(y, x) == Some(Cmp(Equal, s, SYMBOL_YES))
    ensures var (x, y) := (Sym(s), Not(Sym(s)));
            s.stype == Boolean ==> JoinOr(x, y) == JoinOr(y, x) == Some(Sym(SYMBOL_YES))
  {
  }

  /** The one case in which `expr_join_and` changes the value: `s = c && s != d` where the constants
      `c` and `d` are different symbols that denote the same tristate value, as 'n' and "0" do. */
  predicate AliasedConstants(a: Expr, b: Expr) {
    && a.Cmp? && b.Cmp? && a.a == b.a && a.a.stype == Tristate
    && (EqualUnequalConstants(a, b) || EqualUnequalConstants(b, a))
    && a.b != b.b && a.b.denotes == b.b.denotes && a.b.denotes.Some?
  }

  /** The assignments in which it does: the tristate has that value. */
  predicate Misread(a: Expr, b: Expr, env: Env) {
    AliasedConstants(a, b) && a.b.denotes == Some(env.tri(a.a))
  }

  lemma {:induction false} JoinAndKeepsValue(a: Expr, b: Expr, env: Env)
    requires WellTyped(env) && JoinAnd(a, b).Some? && !Misread(a, b, env)
    ensures Eval(JoinAnd(a, b).value, env) == Min(Eval(a, env), Eval(b, env))
  {
    LettersAreConstant();
    if ExprEq(a, b) {
      ExprEqSound(a, b, env);
    } else if a.Cmp? && b.Cmp? {
      JoinComparisonsKeepsValue(a, b, env);
    }
  }

  lemma {:induction false} JoinComparisonsKeepsValue(a: Expr, b: Expr, env: Env)
    requires WellTyped(env) && JoinAnd(a, b).Some? && !Misread(a, b, env) && !ExprEq(a, b)
    requires a.Cmp? && b.Cmp?
    ensures Eval(JoinAnd(a, b).value, env) == Min(Eval(a, env), Eval(b, env))
  {
    LettersAreConstant();
    var s := CommonSubject(a, b).value;
    assert Eval(a, env) == OfBool(Holds(a.rel, env.cmp(s, a.b)));
    assert Eval(b, env) == OfBool(Holds(b.rel, env.cmp(s, b.b)));
  }

  lemma {:induction false} LettersAreConstant()
    ensures forall c: Symbol :: IsLetter(c) ==> c.isConst
    ensures SYMBOL_YES.denotes == Some(YES) && SYMBOL_MOD.denotes == Some(MOD) && SYMBOL_NO.denotes == Some(NO)
  {
  }

  /** An assignment in which the tristate `s` has the value `v`. */
  ghost function SingleEnv(s: Symbol, v: Tri): (env: Env)
    requires s.stype == Tristate
    ensures WellTyped(env) && env.tri(s) == v
  {
    var tri: Symbol -> Tri := (x: Symbol) =>
      if x == s then v
      else if x == SYMBOL_YES then YES else if x == SYMBOL_MOD then MOD else NO;
    Env(tri, (x: Symbol, c: Symbol) =>
          if (if IsLetter(x) then x == c else c.isConst && c.denotes == Some(tri(x))) then 0 else 1)
  }

  ghost predicate KeepsValueEverywhere(a: Expr, b: Expr)
    requires JoinAnd(a, b).Some?
  {
    forall env: Env :: WellTyped(env) ==>
      Eval(JoinAnd(a, b).value, env) == Min(Eval(a, env), Eval(b, env))
  }

  /** `expr_join_and` keeps the value in an assignment if and only if it does not misread its operands there. */
  lemma {:induction false} JoinAndExactAt(a: Expr, b: Expr, env: Env)
    requires WellTyped(env) && JoinAnd(a, b).Some?
    ensures Eval(JoinAnd(a, b).value, env) == Min(Eval(a, env), Eval(b, env)) <==> !Misread(a, b, env)
  {
    if Misread(a, b, env) {
      assert Eval(a, env) != Eval(b, env);
      assert Eval(JoinAnd(a, b).value, env) == YES;
    } else {
      JoinAndKeepsValue(a, b, env);
    }
  }

  /** `expr_join_and` keeps the value in every assignment if and only if its operands are not a pair
      of aliased constants. */
  lemma {:induction false} JoinAndExact(a: Expr, b: Expr)
    requires JoinAnd(a, b).Some?
    ensures KeepsValueEverywhere(a, b) <==> !AliasedConstants(a, b)
  {
    if AliasedConstants(a, b) {
      JoinAndExactAt(a, b, SingleEnv(a.a, a.b.denotes.value));
    } else {
      forall env: Env | WellTyped(env)
        ensures Eval(JoinAnd(a, b).value, env) == Min(Eval(a, env), Eval(b, env))
      {
        JoinAndKeepsValue(a, b, env);
      }
    }
  }

  /** No tristate is tested for equality with a constant, other than y, m and n, that denotes the value it has. */
  predicate CleanConstants(e: Expr, env: Env) {
    match e
    case Sym(_) => true
    case Not(x) => CleanConstants(x, env)
    case Bin(_, l, r) => CleanConstants(l, env) && CleanConstants(r, env)
    case Cmp(rel, s, c) =>
      (rel == Equal || rel == Unequal) && s.stype == Tristate && c.isConst && c.denotes == Some(env.tri(s)) ==>
        IsLetter(c)
  }

  lemma {:induction false} JoinClean(g: Gate, a: Expr, b: Expr, env: Env)
    requires Join(g, a, b).Some? && CleanConstants(a, env) && CleanConstants(b, env)
    ensures CleanConstants(Join(g, a, b).value, env)
  {
  }

  lemma {:induction false} JoinKeepsValue(g: Gate, a: Expr, b: Expr, env: Env)
    requires WellTyped(env) && Join(g, a, b).Some? && CleanConstants(a, env) && CleanConstants(b, env)
    ensures Eval(Join(g, a, b).value, env) == Apply(g, Eval(a, env), Eval(b, env))
  {
    if g == Or {
      JoinOrKeepsValue(a, b, env);
    } else {
      CleanIsNotMisread(a, b, env);
      JoinAndKeepsValue(a, b, env);
    }
  }

  lemma {:induction false} CleanIsNotMisread(a: Expr, b: Expr, env: Env)
    requires CleanConstants(a, env) && CleanConstants(b, env)
    ensures !Misread(a, b, env)
  {
  }
}
