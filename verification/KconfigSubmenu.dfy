/**
 Automatic submenus: when the item after a symbol may be shown below it (`expr_trans_compare`,
 `expr_depends_symbol` and the test in `menu_finalize`).
 */
module KconfigSubmenu {
  import opened Options
  import opened KconfigExpr
  import opened KconfigEq
  import opened KconfigJoin
  import opened KconfigDups
  import opened KconfigTransform

  // ---- expr_trans_compare ----

  /** Inserts the comparison `rel` with `c` at every symbol of a dependency. `rel` is `=` or `!=`, and
      `c` is y or n. */
  function TransCompare(d: Option<Expr>, rel: Relation, c: Symbol): Expr
    requires (rel == Equal || rel == Unequal) && (c == SYMBOL_YES || c == SYMBOL_NO)
    decreases if d.Some? then Size(d.value) else 0
  {
    match d
    case None => if rel == Unequal then Not(Sym(c)) else Sym(c)
    case Some(Bin(g, l, r)) =>
      var l', r' := TransCompare(Some(l), Equal, c), TransCompare(Some(r), Equal, c);
      var e := Bin(if c == SYMBOL_NO then Dual(g) else g, l', r');
      if rel == Unequal then Not(e) else e
    case Some(Not(x)) => TransCompare(Some(x), if rel == Equal then Unequal else Equal, c)
    case Some(Cmp(r, a, b)) =>
      if (rel == Equal) == (c == SYMBOL_YES) then Cmp(r, a, b) else Not(Cmp(r, a, b))
    case Some(Sym(s)) => Cmp(rel, s, c)
  }

  /** The two-valued reading of an expression at threshold `c`: a symbol is true when it is y, for
      `c` = y, or when it is not n, for `c` = n. */
  function Truth(e: Expr, c: Symbol, env: Env): bool {
    match e
    case Sym(s) => if c == SYMBOL_YES then env.tri(s) == YES else env.tri(s) != NO
    case Not(x) => !Truth(x, c, env)
    case Bin(And, l, r) => Truth(l, c, env) && Truth(r, c, env)
    case Bin(Or, l, r) => Truth(l, c, env) || Truth(r, c, env)
    case Cmp(rel, a, b) => Holds(rel, env.cmp(a, b))
  }

  /** Every symbol used as a value is a bool, a tristate or one of y, m and n. */
  predicate TypedValues(e: Expr) {
    match e
    case Sym(s) => s.stype == Boolean || s.stype == Tristate || IsLetter(s)
    case Not(x) => TypedValues(x)
    case Bin(_, l, r) => TypedValues(l) && TypedValues(r)
    case Cmp(_, _, _) => true
  }

  /** Every symbol used as a value is equal to `c` exactly when its tristate value is. */
  predicate Compares(e: Expr, c: Symbol, env: Env) {
    match e
    case Sym(s) => env.cmp(s, c) == 0 <==> env.tri(s) == if c == SYMBOL_YES then YES else NO
    case Not(x) => Compares(x, c, env)
    case Bin(_, l, r) => Compares(l, c, env) && Compares(r, c, env)
    case Cmp(_, _, _) => true
  }

  /** So it is in every assignment if no symbol used as a value is an int, a hex, a string or undefined. */
  lemma {:induction false} TypedCompares(e: Expr, c: Symbol, env: Env)
    requires WellTyped(env) && TypedValues(e) && (c == SYMBOL_YES || c == SYMBOL_NO)
    ensures Compares(e, c, env)
  {
    match e
    case Sym(s) =>
      assert IsLetter(c) && c.isConst;
      assert IsLetter(s) ==> (env.cmp(s, c) == 0 <==> s == c);
    case Not(x) => TypedCompares(x, c, env);
    case Bin(_, l, r) => TypedCompares(l, c, env); TypedCompares(r, c, env);
    case Cmp(_, _, _) =>
  }

  /** An absent dependency is y and is compared as such. */
  lemma {:induction false} AbsentCompares(rel: Relation, c: Symbol, env: Env)
    requires WellTyped(env) && (rel == Equal || rel == Unequal) && (c == SYMBOL_YES || c == SYMBOL_NO)
    ensures Eval(TransCompare(None, rel, c), env) == OfBool((rel == Equal) == (c == SYMBOL_YES))
  {
  }

  /** The expression built is y or n, and says exactly how the two-valued reading compares. */
  lemma {:induction false} TransCompareIsTruth(e: Expr, rel: Relation, c: Symbol, env: Env)
    requires Compares(e, c, env)
    requires (rel == Equal || rel == Unequal) && (c == SYMBOL_YES || c == SYMBOL_NO)
    ensures Eval(TransCompare(Some(e), rel, c), env) ==
            OfBool((rel == Equal) == (Truth(e, c, env) == (c == SYMBOL_YES)))
  {
    match e
    case Sym(_) =>
    case Not(x) => TransCompareIsTruth(x, if rel == Equal then Unequal else Equal, c, env);
    case Bin(_, l, r) =>
      TransCompareIsTruth(l, Equal, c, env);
      TransCompareIsTruth(r, Equal, c, env);
    case Cmp(_, _, _) =>
  }

  /** No symbol under a negation has the value m. */
  predicate TwoValuedNegation(e: Expr, negated: bool, env: Env) {
    match e
    case Sym(s) => negated ==> env.tri(s) != MOD
    case Not(x) => TwoValuedNegation(x, true, env)
    case Bin(_, l, r) => TwoValuedNegation(l, negated, env) && TwoValuedNegation(r, negated, env)
    case Cmp(_, _, _) => true
  }

  /** Where negation is two-valued, the reading at n says whether the value is not n. */
  lemma {:induction false} TruthIsNonNo(e: Expr, negated: bool, env: Env)
    requires TwoValuedNegation(e, negated, env)
    ensures Truth(e, SYMBOL_NO, env) <==> Eval(e, env) != NO
    ensures negated ==> Eval(e, env) != MOD
  {
    match e
    case Not(x) => TruthIsNonNo(x, true, env);
    case Bin(_, l, r) => TruthIsNonNo(l, negated, env); TruthIsNonNo(r, negated, env);
    case _ =>
  }

  lemma {:induction false} TransCompareClean(e: Expr, rel: Relation, c: Symbol, env: Env)
    requires CleanConstants(e, env) && (rel == Equal || rel == Unequal) && (c == SYMBOL_YES || c == SYMBOL_NO)
    ensures CleanConstants(TransCompare(Some(e), rel, c), env)
  {
    match e
    case Not(x) => TransCompareClean(x, if rel == Equal then Unequal else Equal, c, env);
    case Bin(_, l, r) => TransCompareClean(l, Equal, c, env); TransCompareClean(r, Equal, c, env);
    case _ =>
  }

  lemma {:induction false} TransformClean(e: Expr, env: Env)
    requires CleanConstants(e, env)
    ensures CleanConstants(Transform(e), env)
    decreases Weight(e)
  {
    match e
    case Bin(g, l, r) => TransformClean(l, env); TransformClean(r, env);
    case Not(x) =>
      TransformClean(x, env);
      var x' := Transform(x);
      match x' {
        case Not(y) => TransformClean(y, env);
        case Bin(g, l, r) =>
          DeMorganIsLighter(g, l, r);
          TransformClean(Bin(Dual(g), Not(l), Not(r)), env);
        case _ =>
      }
    case _ =>
  }

  // ---- expr_depends_symbol ----

  predicate DependsSymbol(e: Expr, s: Symbol) {
    match e
    case Bin(And, l, r) => DependsSymbol(l, s) || DependsSymbol(r, s)
    case Sym(x) => x == s
    case Cmp(Equal, a, b) => a == s && (b == SYMBOL_YES || b == SYMBOL_MOD)
    case Cmp(Unequal, a, b) => a == s && b == SYMBOL_NO
    case _ => false
  }

  /** A dependency on a bool or tristate symbol is n whenever the symbol is n. */
  lemma {:induction false} DependsSymbolSound(e: Expr, s: Symbol, env: Env)
    requires WellTyped(env) && DependsSymbol(e, s) && Eval(e, env) != NO
    requires s.stype == Boolean || s.stype == Tristate
    ensures env.tri(s) != NO
  {
    match e
    case Bin(And, l, r) =>
      if DependsSymbol(l, s) {
        DependsSymbolSound(l, s, env);
      } else {
        DependsSymbolSound(r, s, env);
      }
    case Cmp(rel, a, b) =>
      assert SYMBOL_YES.isConst && SYMBOL_MOD.isConst && SYMBOL_NO.isConst;
    case _ =>
  }

  // ---- The decision in menu_finalize ----

  /** `d != n` with comparisons made explicit, negation pushed down and duplicates removed. */
  function NonNoForm(d: Option<Expr>): Expr {
    EliminateDups(Transform(TransCompare(d, Unequal, SYMBOL_NO)))
  }

  /** Whether an item with dependency `dep` goes below the symbol `s` with prompt dependency `base`. */
  predicate GoesBelow(base: Option<Expr>, dep: Option<Expr>, s: Symbol) {
    && dep.Some?
    && ContainsSymbol(dep.value, s)
    && (DependsSymbol(dep.value, s) || EliminateEq(NonNoForm(dep), NonNoForm(base)).1 == Sym(SYMBOL_YES))
  }

  /** An assignment in which the form `d != n` can be relied on. */
  predicate Sane(d: Option<Expr>, env: Env) {
    d.Some? ==>
      Compares(d.value, SYMBOL_NO, env) && CleanConstants(d.value, env) && TwoValuedNegation(d.value, false, env)
  }

  function TruthOfDep(d: Option<Expr>, env: Env): bool {
    match d
    case None => true
    case Some(e) => Truth(e, SYMBOL_NO, env)
  }

  /** The form `d != n` is y or n, and is y where the two-valued reading is true. */
  lemma {:induction false} NonNoFormIsTruth(d: Option<Expr>, env: Env)
    requires WellTyped(env)
    requires d.Some? ==> Compares(d.value, SYMBOL_NO, env) && CleanConstants(d.value, env)
    ensures Eval(NonNoForm(d), env) == OfBool(TruthOfDep(d, env))
  {
    var e := TransCompare(d, Unequal, SYMBOL_NO);
    if d.Some? {
      TransCompareIsTruth(d.value, Unequal, SYMBOL_NO, env);
      TransCompareClean(d.value, Unequal, SYMBOL_NO, env);
    }
    TransformKeepsValue(e, env);
    TransformClean(e, env);
    EliminateDupsKeepsValue(Transform(e), env);
  }

  lemma {:induction false} NonNoFormValue(d: Option<Expr>, env: Env)
    requires WellTyped(env) && Sane(d, env)
    ensures Eval(NonNoForm(d), env) == OfBool(EvalDep(d, env) != NO)
  {
    NonNoFormIsTruth(d, env);
    if d.Some? {
      TruthIsNonNo(d.value, false, env);
    }
  }

  /** An item is put below a symbol only if it can be visible only where the symbol's own prompt is, or
      only where the symbol is not n. */
  lemma {:induction false} GoesBelowSound(base: Option<Expr>, dep: Option<Expr>, s: Symbol, env: Env)
    requires WellTyped(env) && (s.stype == Boolean || s.stype == Tristate)
    requires GoesBelow(base, dep, s) && EvalDep(dep, env) != NO
    ensures DependsSymbol(dep.value, s) ==> env.tri(s) != NO
    ensures !DependsSymbol(dep.value, s) && Sane(base, env) && Sane(dep, env) ==> EvalDep(base, env) != NO
  {
    if DependsSymbol(dep.value, s) {
      DependsSymbolSound(dep.value, s, env);
    } else if Sane(base, env) && Sane(dep, env) {
      NonNoFormValue(dep, env);
      NonNoFormValue(base, env);
      EliminateEqReflectsOrder(NonNoForm(dep), NonNoForm(base), env);
    }
  }

  // ---- Propagation of a parent's dependency ----

  /** A child's dependency after propagation from its parent (first loop of `menu_finalize`). */
  function Propagate(parentDep: Option<Expr>, dep: Option<Expr>, modules: Symbol): Option<Expr> {
    var own := if dep.None? then None else Some(Transform(RewriteM(dep.value, modules)));
    var both := AllocAnd(parentDep, own);
    if both.None? then None else Some(EliminateDups(both.value))
  }

  lemma {:induction false} RewriteMClean(e: Expr, modules: Symbol, env: Env)
    requires CleanConstants(e, env)
    ensures CleanConstants(RewriteM(e, modules), env)
  {
    match e
    case Not(x) => RewriteMClean(x, modules, env);
    case Bin(_, l, r) => RewriteMClean(l, modules, env); RewriteMClean(r, modules, env);
    case _ =>
  }

  /** The child's dependency becomes the parent's and its own, with m read as m && MODULES. */
  lemma {:induction false} PropagateValue(parentDep: Option<Expr>, dep: Option<Expr>, modules: Symbol, env: Env)
    requires WellTyped(env)
    requires parentDep.Some? ==> CleanConstants(parentDep.value, env)
    requires dep.Some? ==> CleanConstants(dep.value, env)
    ensures var r := Propagate(parentDep, dep, modules);
            && EvalDep(r, env) == Min(EvalDep(parentDep, env), EvalDep(dep, GuardMod(modules, env)))
            && (r.Some? ==> CleanConstants(r.value, env))
  {
    var own := if dep.None? then None else Some(Transform(RewriteM(dep.value, modules)));
    if dep.Some? {
      RewriteMClean(dep.value, modules, env);
      RewriteMValue(dep.value, modules, env);
      TransformKeepsValue(RewriteM(dep.value, modules), env);
      TransformClean(RewriteM(dep.value, modules), env);
    }
    var both := AllocAnd(parentDep, own);
    if both.Some? {
      EliminateDupsKeepsValue(both.value, env);
    }
  }

  /** Propagation keeps negation on symbols, the form `expr_trans_bool` relies on. */
  lemma {:induction false} PropagateNegatesSymbols(parentDep: Option<Expr>, dep: Option<Expr>, modules: Symbol)
    requires parentDep.Some? ==> NegatesSymbols(parentDep.value)
    ensures var r := Propagate(parentDep, dep, modules); r.Some? ==> NegatesSymbols(r.value)
  {
    if parentDep.Some? {
      NegatesSymbolsIsOperandwise(parentDep.value);
    }
    var own := if dep.None? then None else Some(Transform(RewriteM(dep.value, modules)));
    if dep.Some? {
      TransformIsNormal(RewriteM(dep.value, modules));
      NormalNegatesSymbols(own.value);
      NegatesSymbolsIsOperandwise(own.value);
    }
    var both := AllocAnd(parentDep, own);
    if both.Some? {
      NegatesSymbolIsClosed();
      EliminateDupsOperands(both.value, NegatesSymbol);
      NegatesSymbolsIsOperandwise(EliminateDups(both.value));
    }
  }

  predicate NegatesSymbol(e: Expr) { e.Not? ==> e.e.Sym? }

  lemma {:induction false} NegatesSymbolIsClosed()
    ensures ClosedUnderJoin(NegatesSymbol)
  {
  }

  lemma {:induction false} NegatesSymbolsIsOperandwise(e: Expr)
    ensures NegatesSymbols(e) <==> AllOperands(e, NegatesSymbol)
  {
    if e.Bin? {
      NegatesSymbolsIsOperandwise(e.l);
      NegatesSymbolsIsOperandwise(e.r);
    }
  }

  lemma {:induction false} NormalNegatesSymbols(e: Expr)
    requires Normal(e)
    ensures NegatesSymbols(e)
  {
    if e.Bin? {
      NormalNegatesSymbols(e.l);
      NormalNegatesSymbols(e.r);
    }
  }

  /** The condition stored for a prompt of a symbol that is not a tristate: after propagation and
      `expr_trans_bool` it is n exactly when the parent's dependency or the prompt's own is n. */
  lemma {:induction false} PromptConditionNonNo(parentDep: Option<Expr>, dep: Option<Expr>, modules: Symbol, env: Env)
    requires WellTyped(env)
    requires parentDep.Some? ==> CleanConstants(parentDep.value, env) && NegatesSymbols(parentDep.value)
    requires dep.Some? ==> CleanConstants(dep.value, env)
    ensures var r := Propagate(parentDep, dep, modules);
            r.Some? ==>
              (Eval(TransBool(r.value), env) != NO <==>
               EvalDep(parentDep, env) != NO && EvalDep(dep, GuardMod(modules, env)) != NO)
  {
    PropagateValue(parentDep, dep, modules, env);
    PropagateNegatesSymbols(parentDep, dep, modules);
    var r := Propagate(parentDep, dep, modules);
    if r.Some? {
      TransBoolKeepsNonNo(r.value, env);
    }
  }

  // ---- What the conditions of these theorems exclude ----

  lemma {:induction false} OneStep(g: Gate, t: Expr)
    requires IsGate(g, t)
    ensures [] + [L] == [L] && [] + [R] == [R] && [L][1..] == [] && [R][1..] == []
    ensures OnLevel(g, t, [L]) && At(g, t, [L]) == t.l
    ensures OnLevel(g, t, [R]) && At(g, t, [R]) == t.r
  {
    assert OnLevel(g, t.l, [L][1..]) && OnLevel(g, t.r, [R][1..]);
  }

  lemma {:induction false} OnePut(g: Gate, t: Expr, x: Expr)
    requires IsGate(g, t)
    ensures OnLevel(g, t, [L]) && Put(g, t, [L], x) == Bin(g, x, t.r)
    ensures OnLevel(g, t, [R]) && Put(g, t, [R], x) == Bin(g, t.l, x)
  {
    OneStep(g, t);
  }

  /** The same with a level of the other gate below, on which nothing can be joined either. */
  lemma {:induction false} QuietNest(g: Gate, a: Expr, b: Expr)
    requires !a.Bin? && b.Bin? && b.op != g && DupsLevel(b.op, b, [], []) == Pass(b, 0)
    requires Join(g, a, b).None? && Join(g, b, a).None?
    ensures EliminateDups(Bin(g, a, b)) == Bin(g, a, b)
  {
    var t := Bin(g, a, b);
    OneStep(g, t);
    PutSame(g, t, [L]);
    PutSame(g, t, [R]);
    assert DupsLevel(g, t, [L], [L]) == Pass(t, 0);
    assert DupsLevel(g, t, [L], [R]) == Pass(t, 0);
    assert DupsLevel(g, t, [L], []) == Pass(t, 0);
    assert DupsLevel(g, t, [R], [L]) == JoinAt(g, t, [R], [L], Pass(b, 0));
    assert DupsLevel(g, t, [R], [R]) == Pass(t, 0);
    assert DupsLevel(g, t, [R], []) == Pass(t, 0);
    assert DupsLevel(g, t, [], []) == Pass(t, 0);
  }

  lemma {:induction false} QuietLevel(g: Gate, a: Expr, b: Expr)
    requires !a.Bin? && !b.Bin? && Join(g, a, b).None? && Join(g, b, a).None?
    ensures DupsLevel(g, Bin(g, a, b), [], []) == Pass(Bin(g, a, b), 0)
  {
    var t := Bin(g, a, b);
    OneStep(g, t);
    PutSame(g, t, [L]);
    PutSame(g, t, [R]);
    assert DupsLevel(g, t, [L], [L]) == Pass(t, 0);
    assert DupsLevel(g, t, [L], [R]) == Pass(t, 0);
    assert DupsLevel(g, t, [L], []) == Pass(t, 0);
    assert DupsLevel(g, t, [R], [L]) == Pass(t, 0);
    assert DupsLevel(g, t, [R], [R]) == Pass(t, 0);
    assert DupsLevel(g, t, [R], []) == Pass(t, 0);
  }

  /** `!A && (S || B)` in the form that is compared. */
  lemma {:induction false} NegatedTristateForms(a: Symbol, s: Symbol, b: Symbol)
    requires a.stype == Tristate && s.stype == Tristate && b.stype == Tristate && a != s && a != b && s != b
    ensures var x := Cmp(Equal, a, SYMBOL_NO);
            var or := Bin(Or, Cmp(Unequal, s, SYMBOL_NO), Cmp(Unequal, b, SYMBOL_NO));
            && NonNoForm(Some(x)) == x
            && NonNoForm(Some(Bin(And, Not(Sym(a)), Bin(Or, Sym(s), Sym(b))))) == Bin(And, x, or)
  {
    var x, y, z := Cmp(Equal, a, SYMBOL_NO), Cmp(Unequal, s, SYMBOL_NO), Cmp(Unequal, b, SYMBOL_NO);
    var or := Bin(Or, y, z);
    var inner := Bin(And, Cmp(Equal, s, SYMBOL_NO), Cmp(Equal, b, SYMBOL_NO));
    var dep := Some(Bin(And, Not(Sym(a)), Bin(Or, Sym(s), Sym(b))));
    var e1 := Cmp(Unequal, a, SYMBOL_NO);
    assert TransCompare(Some(Not(Sym(a))), Equal, SYMBOL_NO) == e1;
    assert TransCompare(Some(Sym(s)), Equal, SYMBOL_NO) == inner.l;
    assert TransCompare(Some(Sym(b)), Equal, SYMBOL_NO) == inner.r;
    assert TransCompare(Some(Bin(Or, Sym(s), Sym(b))), Equal, SYMBOL_NO) == inner;
    assert TransCompare(dep, Unequal, SYMBOL_NO) == Not(Bin(Or, e1, inner));
    assert Transform(inner) == inner && Transform(e1) == e1 && Transform(Bin(Or, e1, inner)) == Bin(Or, e1, inner);
    assert Transform(Not(e1)) == x && Transform(Not(inner.l)) == y && Transform(Not(inner.r)) == z;
    assert Transform(Bin(Or, Not(inner.l), Not(inner.r))) == or;
    assert Transform(Not(inner)) == or;
    assert Transform(Bin(And, Not(e1), Not(inner))) == Bin(And, x, or);
    QuietLevel(Or, y, z);
    QuietNest(And, x, or);
  }

  lemma {:induction false} NegatedTristateValues(a: Symbol, s: Symbol, b: Symbol, env: Env)
    requires a.stype == Tristate && WellTyped(env) && env.tri(a) == MOD && env.tri(b) == YES
    ensures Eval(Bin(And, Not(Sym(a)), Bin(Or, Sym(s), Sym(b))), env) == MOD
    ensures Eval(Cmp(Equal, a, SYMBOL_NO), env) == NO
  {
    assert Eval(Sym(a), env) == MOD;
    assert Eval(Not(Sym(a)), env) == MOD;
    assert Eval(Bin(Or, Sym(s), Sym(b)), env) == YES;
    assert SYMBOL_NO.isConst && SYMBOL_NO.denotes == Some(NO);
  }

  /** With a tristate that is m under a negation the test is not sound: `!A && (S || B)` goes below the symbol S
      whose prompt depends on `A = n`, although with A = m, B = y and S = n the item is m while both the symbol and
      its prompt dependency are n. No symbol depends on itself here. */
  lemma {:induction false} NegatedTristateIsUnsound(a: Symbol, s: Symbol, b: Symbol, env: Env)
    requires a.stype == Tristate && s.stype == Tristate && b.stype == Tristate && a != s && a != b && s != b
    requires WellTyped(env) && env.tri(a) == MOD && env.tri(b) == YES && env.tri(s) == NO
    ensures var base, dep := Some(Cmp(Equal, a, SYMBOL_NO)), Some(Bin(And, Not(Sym(a)), Bin(Or, Sym(s), Sym(b))));
            && GoesBelow(base, dep, s)
            && EvalDep(dep, env) == MOD && EvalDep(base, env) == NO
  {
    var x, or := Cmp(Equal, a, SYMBOL_NO), Bin(Or, Cmp(Unequal, s, SYMBOL_NO), Cmp(Unequal, b, SYMBOL_NO));
    var yes := Sym(SYMBOL_YES);
    NegatedTristateForms(a, s, b);
    assert CancelOperands(And, x, x) == (yes, yes);
    assert CancelOperands(And, or, yes) == (or, yes);
    assert CancelOperands(And, Bin(And, x, or), x) == (Bin(And, yes, or), yes);
    assert ContainsSymbol(Bin(Or, Sym(s), Sym(b)), s);
    NegatedTristateValues(a, s, b, env);
  }

  /** A symbol that is no bool or tristate has the value n, but its text is not "n": used as a dependency it is never
      met, and yet the form `d != n` is y. */
  lemma {:induction false} NumberAsValueIsUnsound(s: Symbol, env: Env)
    requires s.stype == Int && env.tri(s) == NO && env.cmp(s, SYMBOL_NO) != 0
    ensures EvalDep(Some(Sym(s)), env) == NO && Eval(NonNoForm(Some(Sym(s))), env) == YES
  {
    assert TransCompare(Some(Sym(s)), Unequal, SYMBOL_NO) == Cmp(Unequal, s, SYMBOL_NO);
  }

  /** A constant such as "0", which denotes n as the letter does, makes removing duplicates change the
      value: `A = n && A != "0"` is never y, but becomes `A = n`. */
  lemma {:induction false} AliasedConstantsChangeValue(a: Symbol, zero: Symbol, env: Env)
    requires a.stype == Tristate && zero.isConst && zero.denotes == Some(NO) && zero != SYMBOL_NO
    requires WellTyped(env) && env.tri(a) == NO
    ensures var e := Bin(And, Cmp(Equal, a, SYMBOL_NO), Cmp(Unequal, a, zero));
            Eval(e, env) == NO && Eval(EliminateDups(e), env) == YES
  {
    var x, y := Cmp(Equal, a, SYMBOL_NO), Cmp(Unequal, a, zero);
    var e := Bin(And, x, y);
    var yes := Sym(SYMBOL_YES);
    var e' := Bin(And, yes, x);
    OneStep(And, e);
    OneStep(And, e');
    OnePut(And, e, yes);
    OnePut(And, Bin(And, yes, y), x);
    assert CommonSubject(x, y) == Some(a);
    assert Join(And, x, y) == Some(x);
    assert DupsLevel(And, e, [L], [L]) == Pass(e, 0);
    assert DupsLevel(And, e, [L], [R]) == Pass(e', 1);
    assert DupsLevel(And, e, [L], []) == Pass(e', 1);
    assert Join(And, x, yes).None?;
    PutSame(And, e', [R]);
    assert DupsLevel(And, e', [R], [L]) == Pass(e', 0);
    assert DupsLevel(And, e', [R], [R]) == Pass(e', 0);
    assert DupsLevel(And, e', [R], []) == Pass(e', 0);
    assert DupsLevel(And, e, [], []) == Pass(e', 1);
    assert Yn(e') == x;
    assert EliminateDups(e) == x;
  }
}
