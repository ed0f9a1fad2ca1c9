/**
 Exactly which items the test for automatic submenus takes.
 */
module KconfigTaken {
  import opened Options
  import opened KconfigExpr
  import opened KconfigEq
  import opened KconfigJoin
  import opened KconfigDups
  import opened KconfigTransform
  import opened KconfigSame
  import opened KconfigSubmenu

  // ---- Mentioning and demanding a symbol ----

  /** The expression with `t` in place of `s`. */
  function Rename(e: Expr, s: Symbol, t: Symbol): Expr {
    match e
    case Sym(x) => Sym(if x == s then t else x)
    case Not(x) => Not(Rename(x, s, t))
    case Bin(g, l, r) => Bin(g, Rename(l, s, t), Rename(r, s, t))
    case Cmp(rel, a, b) => Cmp(rel, if a == s then t else a, if b == s then t else b)
  }

  /** An expression contains a symbol if and only if renaming the symbol changes it. */
  lemma {:induction false} ContainsExactly(e: Expr, s: Symbol, t: Symbol)
    requires s != t
    ensures ContainsSymbol(e, s) <==> Rename(e, s, t) != e
  {
    match e
    case Not(x) => ContainsExactly(x, s, t);
    case Bin(_, l, r) => ContainsExactly(l, s, t); ContainsExactly(r, s, t);
    case _ =>
  }

  /** An operand that is n when `s` is, whatever else: `s` itself, `s = y`, `s = m` or `s != n`. */
  predicate Demands(o: Expr, s: Symbol) {
    o == Sym(s) || o == Cmp(Equal, s, SYMBOL_YES) || o == Cmp(Equal, s, SYMBOL_MOD) || o == Cmp(Unequal, s, SYMBOL_NO)
  }

  ghost predicate DemandsAt(e: Expr, p: Path, s: Symbol) { OperandPath(And, e, p) && Demands(At(And, e, p), s) }

  /** The test for a dependency finds it if and only if some operand of the conjunction demands the symbol. */
  lemma {:induction false} DependsExactly(e: Expr, s: Symbol)
    ensures DependsSymbol(e, s) <==> exists p: Path :: DemandsAt(e, p, s)
  {
    if IsGate(And, e) {
      DependsExactly(e.l, s);
      DependsExactly(e.r, s);
      if p: Path :| DemandsAt(e, p, s) {
        assert DemandsAt(Child(e, p[0]), p[1..], s);
      }
      if p: Path :| DemandsAt(e.l, p, s) {
        assert ([L] + p)[1..] == p && DemandsAt(e, [L] + p, s);
      }
      if p: Path :| DemandsAt(e.r, p, s) {
        assert ([R] + p)[1..] == p && DemandsAt(e, [R] + p, s);
      }
    } else {
      assert Demands(e, s) ==> DemandsAt(e, [], s);
      if p: Path :| DemandsAt(e, p, s) {
        assert p == [];
      }
    }
  }

  lemma {:induction false} DependsContains(e: Expr, s: Symbol)
    requires DependsSymbol(e, s)
    ensures ContainsSymbol(e, s)
  {
    if e.Bin? {
      if DependsSymbol(e.l, s) {
        DependsContains(e.l, s);
      } else {
        DependsContains(e.r, s);
      }
    }
  }

  // ---- The form that is compared ----

  /** `e != n` with the tests at the symbols, all else as it is, and negation at the leaves. */
  function Form(e: Expr): Expr {
    match e
    case Sym(s) => TransformComparison(Unequal, s, SYMBOL_NO)
    case Cmp(rel, a, b) => TransformComparison(rel, a, b)
    case Not(x) => Negated(Form(x))
    case Bin(g, l, r) => Bin(g, Form(l), Form(r))
  }

  lemma {:induction false} FormIs(e: Expr)
    ensures Transform(TransCompare(Some(e), Unequal, SYMBOL_NO)) == Form(e)
    ensures Transform(TransCompare(Some(e), Equal, SYMBOL_NO)) == Negated(Form(e))
    ensures Negated(Negated(Form(e))) == Form(e)
  {
    match e
    case Sym(_) => NegationIs(TransCompare(Some(e), Unequal, SYMBOL_NO));
    case Cmp(_, _, _) => NegationIs(e);
    case Not(x) => FormIs(x);
    case Bin(g, l, r) =>
      FormIs(l);
      FormIs(r);
      NegationIs(TransCompare(Some(e), Equal, SYMBOL_NO));
  }

  /** The form compared is that, without duplicates; that of an absent dependency is y. */
  lemma {:induction false} NonNoFormIs(d: Option<Expr>)
    ensures NonNoForm(d) == if d.None? then Sym(SYMBOL_YES) else EliminateDups(Form(d.value))
  {
    if d.Some? {
      FormIs(d.value);
    } else {
      assert Transform(Sym(SYMBOL_NO)) == Sym(SYMBOL_NO);
      assert Transform(Not(Sym(SYMBOL_NO))) == Sym(SYMBOL_YES);
    }
  }

  /** No bool is tested for m. */
  predicate NoModTest(e: Expr) {
    match e
    case Sym(_) => true
    case Not(x) => NoModTest(x)
    case Bin(_, l, r) => NoModTest(l) && NoModTest(r)
    case Cmp(rel, a, b) => a.stype == Boolean && (rel == Equal || rel == Unequal) ==> b != SYMBOL_MOD
  }

  /** The leaves are symbols other than y, m and n, their negations and comparisons. */
  predicate NoLetters(e: Expr) {
    match e
    case Sym(s) => !IsLetter(s)
    case Not(x) => x.Sym? && !IsLetter(x.s)
    case Bin(_, l, r) => NoLetters(l) && NoLetters(r)
    case Cmp(_, _, _) => true
  }

  lemma {:induction false} FormHasNoLetters(e: Expr)
    requires NoModTest(e)
    ensures NoLetters(Form(e))
  {
    match e
    case Not(x) => FormHasNoLetters(x); NegatedHasNoLetters(Form(x));
    case Bin(_, l, r) => FormHasNoLetters(l); FormHasNoLetters(r);
    case _ =>
  }

  lemma {:induction false} NegatedHasNoLetters(e: Expr)
    requires NoLetters(e)
    ensures NoLetters(Negated(e))
  {
    if e.Bin? {
      NegatedHasNoLetters(e.l);
      NegatedHasNoLetters(e.r);
    }
  }

  lemma {:induction false} NoLettersIsPlain(e: Expr)
    requires NoLetters(e)
    ensures NegatesSymbols(e) && !HasConst(e) && !IsConstLeaf(e)
  {
    if e.Bin? {
      NoLettersIsPlain(e.l);
      NoLettersIsPlain(e.r);
    }
  }

  lemma {:induction false} NoConstIsPlain(e: Expr)
    requires NegatesSymbols(e) && !HasConst(e)
    ensures Plain(e)
  {
    if e.Bin? {
      NoConstIsPlain(e.l);
      NoConstIsPlain(e.r);
    }
  }

  /** Removing duplicates leaves no y or n operand where there was none. */
  lemma {:induction false} DupsArePlain(e: Expr)
    requires NegatesSymbols(e) && !HasConst(e)
    ensures Plain(EliminateDups(e))
    decreases Size(e)
  {
    NoConstIsPlain(e);
    var r := if e.Bin? then DupsLevel(e.op, e, [], []) else Pass(e, 0);
    if r.joins != 0 {
      NegatesSymbolIsClosed();
      NegatesSymbolsIsOperandwise(e);
      DupsLevelOperands(e.op, e, [], [], NegatesSymbol);
      YnOperands(r.tree, NegatesSymbol);
      NegatesSymbolsIsOperandwise(Yn(r.tree));
      YnRemovesConstants(r.tree);
      DupsArePlain(Yn(r.tree));
    }
  }

  lemma {:induction false} FormIsPlain(d: Option<Expr>)
    requires d.Some? ==> NoModTest(d.value)
    ensures Plain(NonNoForm(d))
  {
    NonNoFormIs(d);
    if d.Some? {
      FormHasNoLetters(d.value);
      NoLettersIsPlain(Form(d.value));
      DupsArePlain(Form(d.value));
    }
  }

  // ---- The superset test ----

  lemma {:induction false} PlainGateHasTwo(g: Gate, e: Expr)
    requires Plain(e) && !IsConstLeaf(e)
    ensures |Operands(g, e)| >= if IsGate(g, e) then 2 else 1
  {
    if IsGate(g, e) {
      PlainGateHasTwo(g, e.l);
      PlainGateHasTwo(g, e.r);
    }
  }

  /** The second expression stays plain, whatever is cancelled against it. */
  lemma {:induction false} SecondStaysPlain(g: Gate, a: Expr, b: Expr)
    requires PlainLevel(g, b)
    ensures PlainLevel(g, CancelOperands(g, a, b).1)
    decreases Size(a) + Size(b), if IsGate(g, a) || IsGate(g, b) then 0 else 3
  {
    if IsGate(g, a) {
      SecondStaysPlain(g, a.l, b);
      SizeAfter(g, a.l, b);
      SecondStaysPlain(g, a.r, CancelOperands(g, a.l, b).1);
    } else if IsGate(g, b) {
      SecondStaysPlain(g, a, b.l);
      SizeBefore(g, a, b.l);
      SecondStaysPlain(g, CancelOperands(g, a, b.l).0, b.r);
    }
  }

  lemma {:induction false} SizeBefore(g: Gate, a: Expr, b: Expr)
    ensures Size(CancelOperands(g, a, b).0) <= Size(a)
    ensures !IsGate(g, a) ==> !IsGate(g, CancelOperands(g, a, b).0)
    decreases Size(a) + Size(b)
  {
    if IsGate(g, b) && !IsGate(g, a) {
      SizeBefore(g, a, b.l);
      SizeBefore(g, CancelOperands(g, a, b.l).0, b.r);
    }
  }

  /** A single operand takes at most one away. */
  lemma {:induction false} LeafCancelsOnce(g: Gate, a: Expr, b: Expr)
    requires !IsGate(g, a) && PlainLevel(g, b)
    ensures var (x, y) := CancelOperands(g, a, b);
            (x == a && y == b) || (x == NeutralLeaf(g) && |Operands(g, y)| + 1 == |Operands(g, b)|)
    decreases Size(b)
  {
    if IsGate(g, b) {
      LeafCancelsOnce(g, a, b.l);
      ConstsStay(g, NeutralLeaf(g), b.r);
      LeafCancelsOnce(g, a, b.r);
    }
  }

  /** At the level of an `||` nothing becomes y. */
  lemma {:induction false} OrIsNeverYes(a: Expr, b: Expr)
    requires Plain(b) && !IsConstLeaf(b)
    ensures var y := CancelOperands(Or, a, b).1; PlainLevel(Or, y) && Yn(y) != Sym(SYMBOL_YES)
  {
    PlainIsLevel(Or, b);
    SecondStaysPlain(Or, a, b);
    YnOfLevel(Or, CancelOperands(Or, a, b).1);
  }

  /** A single operand does not use up an `&&`. */
  lemma {:induction false} LeafLeavesSome(a: Expr, b: Expr)
    requires !IsGate(And, a) && IsGate(And, b) && Plain(b)
    ensures Yn(CancelOperands(And, a, b).1) != Sym(SYMBOL_YES)
  {
    PlainIsLevel(And, b);
    PlainGateHasTwo(And, b);
    LeafCancelsOnce(And, a, b);
    SecondStaysPlain(And, a, b);
    YnOfLevel(And, CancelOperands(And, a, b).1);
  }

  lemma {:induction false} AllCancelled(a: multiset<Norm>, b: multiset<Norm>, x: multiset<Norm>, y: multiset<Norm>)
    requires Cancelled(a, b, x, y)
    ensures y == multiset{} <==> b <= a
  {
    forall n
      ensures b <= a ==> y[n] == 0
      ensures b[n] <= a[n] + y[n]
    {
      assert (a - x)[n] == (b - y)[n];
      assert x[n] == 0 || y[n] == 0;
    }
  }

  lemma {:induction false} NoConstOperand(g: Gate, e: Expr)
    requires Plain(e) && !IsConstLeaf(e)
    ensures SymN(SYMBOL_NO) !in Operands(g, e) && SymN(SYMBOL_YES) !in Operands(g, e)
  {
    if IsGate(g, e) {
      NoConstOperand(g, e.l);
      NoConstOperand(g, e.r);
    }
  }

  predicate IsSuperset(x: Expr, y: Expr) { EliminateEq(x, y).1 == Sym(SYMBOL_YES) }

  lemma {:induction false} SupersetOfConjunction(x: Expr, y: Expr)
    requires Plain(x) && Plain(y) && IsGate(And, x)
    ensures IsSuperset(x, y) <==> Operands(And, y) <= Operands(And, x)
  {
    var (x1, y1) := CancelOperands(And, x, y);
    FirstLevel(And, x, y);
    if IsConstLeaf(y) {
      ConstsStay(And, x, y);
      NoConstOperand(And, x);
      assert y == Sym(SYMBOL_NO) ==> Operands(And, y)[SymN(SYMBOL_NO)] == 1;
    } else {
      PlainIsLevel(And, x);
      PlainIsLevel(And, y);
      CancelIsComplete(And, x, y);
      AllCancelled(Operands(And, x), Operands(And, y), Operands(And, x1), Operands(And, y1));
      YnOfLevel(And, y1);
      if IsGate(Or, y1) {
        LeafStaysSome(And, x, y);
        OrIsNeverYes(x1, y1);
      }
    }
    hide *;
  }

  /** The first of two gates is the one cancelled at; if the second then is of the other kind, that level follows. */
  lemma {:induction false} FirstLevel(g: Gate, x: Expr, y: Expr)
    requires IsGate(g, x)
    ensures var (x1, y1) := CancelOperands(g, x, y);
            IsSuperset(x, y) <==>
            Yn(if IsGate(Dual(g), y1) then CancelOperands(Dual(g), x1, y1).1 else y1) == Sym(SYMBOL_YES)
  {
    var (x1, y1) := CancelOperands(g, x, y);
    assert IsGate(g, x1);
    assert CancelFirst(x, y) == (x1, y1);
    assert CancelSecond(x1, y1).1 == if IsGate(Dual(g), y1) then CancelOperands(Dual(g), x1, y1).1 else y1;
    assert EliminateEq(x, y).1 == Yn(CancelSecond(x1, y1).1);
  }

  lemma {:induction false} LeafStaysSome(g: Gate, a: Expr, b: Expr)
    ensures var y := CancelOperands(g, a, b).1; y.Bin? && !IsGate(g, y) ==> y == b
    decreases Size(a)
  {
    if IsGate(g, b) {
      GateStays(g, a, b);
    } else {
      LeafStays(g, a, b);
    }
  }

  lemma {:induction false} SupersetOfOther(x: Expr, y: Expr)
    requires Plain(x) && Plain(y) && !IsGate(And, x)
    ensures IsSuperset(x, y) <==> y == Sym(SYMBOL_YES)
  {
    if IsGate(Or, x) {
      var (x1, y1) := CancelOperands(Or, x, y);
      FirstLevel(Or, x, y);
      if IsConstLeaf(y) {
        ConstsStay(Or, x, y);
      } else if IsGate(Or, y) {
        OrIsNeverYes(x, y);
        GateStays(Or, x, y);
      } else {
        OrIsNeverYes(x, y);
        LeafOfOr(x, y);
        if IsGate(And, y) {
          LeafLeavesSome(x1, y);
        }
      }
    } else if y.Bin? {
      assert CancelFirst(x, y) == (x, y) && CancelSecond(x, y) == CancelOperands(y.op, x, y);
      assert EliminateEq(x, y).1 == Yn(CancelOperands(y.op, x, y).1);
      if y.op == Or {
        OrIsNeverYes(x, y);
      } else {
        LeafLeavesSome(x, y);
      }
    } else {
      assert CancelFirst(x, y) == (x, y) && CancelSecond(x, y) == (x, y);
      assert EliminateEq(x, y).1 == Yn(y);
    }
  }

  lemma {:induction false} GateStays(g: Gate, a: Expr, b: Expr)
    requires IsGate(g, b)
    ensures IsGate(g, CancelOperands(g, a, b).1)
    decreases Size(a)
  {
    if IsGate(g, a) {
      GateStays(g, a.l, b);
      GateStays(g, a.r, CancelOperands(g, a.l, b).1);
    }
  }

  /** Against an `||` anything else is a single operand: it stays or becomes n. */
  lemma {:induction false} LeafOfOr(x: Expr, y: Expr)
    requires IsGate(Or, x) && !IsGate(Or, y)
    ensures var (x1, y1) := CancelOperands(Or, x, y); IsGate(Or, x1) && (y1 == y || y1 == Sym(SYMBOL_NO))
  {
    LeafStays(Or, x.l, y);
    LeafStays(Or, x.r, CancelOperands(Or, x.l, y).1);
  }

  lemma {:induction false} LeafStays(g: Gate, a: Expr, b: Expr)
    requires !IsGate(g, b)
    ensures var y := CancelOperands(g, a, b).1; y == b || y == NeutralLeaf(g)
    decreases Size(a)
  {
    if IsGate(g, a) {
      LeafStays(g, a.l, b);
      LeafStays(g, a.r, CancelOperands(g, a.l, b).1);
    }
  }

  /** The superset test succeeds if and only if nothing is asked for, or every operand of the conjunction asked for is
      an operand of the other, in whatever order and grouping. */
  lemma {:induction false} SupersetExactly(x: Expr, y: Expr)
    requires Plain(x) && Plain(y)
    ensures IsSuperset(x, y) <==>
            y == Sym(SYMBOL_YES) || (IsGate(And, x) && Operands(And, y) <= Operands(And, x))
  {
    if IsGate(And, x) {
      SupersetOfConjunction(x, y);
    } else {
      SupersetOfOther(x, y);
    }
  }

  /** Exactly when an item goes below a symbol. */
  lemma {:induction false} GoesBelowExactly(base: Option<Expr>, dep: Option<Expr>, s: Symbol)
    requires (base.Some? ==> NoModTest(base.value)) && (dep.Some? ==> NoModTest(dep.value))
    ensures var (x, y) := (NonNoForm(dep), NonNoForm(base));
            GoesBelow(base, dep, s) <==>
            && dep.Some? && ContainsSymbol(dep.value, s)
            && ((exists p: Path :: DemandsAt(dep.value, p, s))
                || y == Sym(SYMBOL_YES) || (IsGate(And, x) && Operands(And, y) <= Operands(And, x)))
  {
    FormIsPlain(base);
    FormIsPlain(dep);
    SupersetExactly(NonNoForm(dep), NonNoForm(base));
    if dep.Some? {
      DependsExactly(dep.value, s);
    }
    hide NonNoForm, Operands, Plain, EliminateEq;
  }

  /** Without conditions on the expressions: an item with an operand that demands the symbol is taken. */
  lemma {:induction false} DemandIsTaken(base: Option<Expr>, dep: Expr, s: Symbol, p: Path)
    requires DemandsAt(dep, p, s)
    ensures GoesBelow(base, Some(dep), s)
  {
    DependsExactly(dep, s);
    DependsContains(dep, s);
  }

  // ---- Items with all operands of the prompt's condition ----

  function Conjuncts(e: Expr): set<Expr> {
    if IsGate(And, e) then Conjuncts(e.l) + Conjuncts(e.r) else {e}
  }

  lemma {:induction false} FormOperands(e: Expr, n: Norm)
    ensures n in Operands(And, Form(e)) <==> exists o :: o in Conjuncts(e) && n in Operands(And, Form(o))
  {
    if IsGate(And, e) {
      FormOperands(e.l, n);
      FormOperands(e.r, n);
    }
  }

  lemma {:induction false} ContainedConjunct(e: Expr, o: Expr, s: Symbol)
    requires o in Conjuncts(e) && ContainsSymbol(o, s)
    ensures ContainsSymbol(e, s)
  {
    if IsGate(And, e) {
      if o in Conjuncts(e.l) {
        ContainedConjunct(e.l, o, s);
      } else {
        ContainedConjunct(e.r, o, s);
      }
    }
  }

  lemma {:induction false} OperandAt(g: Gate, t: Expr, n: Norm) returns (p: Path)
    requires n in Operands(g, t)
    ensures OperandPath(g, t, p) && NormOf(At(g, t, p)) == n
  {
    if IsGate(g, t) {
      var s := if n in Operands(g, t.l) then L else R;
      var q := OperandAt(g, Child(t, s), n);
      p := [s] + q;
      assert p[1..] == q;
    } else {
      p := [];
    }
  }

  lemma {:induction false} PlainAt(g: Gate, t: Expr, p: Path)
    requires Plain(t) && OnLevel(g, t, p)
    ensures Plain(At(g, t, p))
  {
    if p != [] {
      PlainAt(g, Child(t, p[0]), p[1..]);
    }
  }

  ghost predicate AllDistinct(g: Gate, t: Expr) {
    forall p: Path, q: Path :: OperandPath(g, t, p) && OperandPath(g, t, q) && p != q ==>
      NormOf(At(g, t, p)) != NormOf(At(g, t, q))
  }

  lemma {:induction false} ChildDistinct(g: Gate, t: Expr, s: Side)
    requires AllDistinct(g, t) && IsGate(g, t)
    ensures AllDistinct(g, Child(t, s))
  {
    forall p: Path, q: Path | OperandPath(g, Child(t, s), p) && OperandPath(g, Child(t, s), q) && p != q
      ensures NormOf(At(g, Child(t, s), p)) != NormOf(At(g, Child(t, s), q))
    {
      assert ([s] + p)[1..] == p && ([s] + q)[1..] == q;
      assert OperandPath(g, t, [s] + p) && OperandPath(g, t, [s] + q);
    }
  }

  lemma {:induction false} OperandsOnce(g: Gate, t: Expr)
    requires AllDistinct(g, t)
    ensures forall n :: Operands(g, t)[n] <= 1
  {
    if IsGate(g, t) {
      ChildDistinct(g, t, L);
      ChildDistinct(g, t, R);
      OperandsOnce(g, t.l);
      OperandsOnce(g, t.r);
      forall n
        ensures Operands(g, t.l)[n] + Operands(g, t.r)[n] <= 1
      {
        if n in Operands(g, t.l) && n in Operands(g, t.r) {
          var p := OperandAt(g, t.l, n);
          var q := OperandAt(g, t.r, n);
          assert ([L] + p)[1..] == p && ([R] + q)[1..] == q;
          assert OperandPath(g, t, [L] + p) && OperandPath(g, t, [R] + q);
        }
      }
    }
  }

  lemma {:induction false} DuplicateFreeOnce(t: Expr)
    requires DuplicateFree(t) && Plain(t)
    ensures forall n :: Operands(And, t)[n] <= 1
  {
    if IsGate(And, t) {
      forall p: Path, q: Path | OperandPath(And, t, p) && OperandPath(And, t, q) && p != q
        ensures NormOf(At(And, t, p)) != NormOf(At(And, t, q))
      {
        assert LevelDuplicateFree(And, t, Size(t));
        assert Different(At(And, t, p), At(And, t, q));
        PlainAt(And, t, p);
        PlainAt(And, t, q);
      }
      OperandsOnce(And, t);
    }
  }

  /** Where the two forms have nothing to simplify, an item that has all operands of the prompt's condition and mentions
      the symbol is taken. */
  lemma {:induction false} ConjunctsAreTaken(base: Expr, dep: Expr, s: Symbol)
    requires NoModTest(base) && NoModTest(dep)
    requires NonNoForm(Some(base)) == Form(base) && NonNoForm(Some(dep)) == Form(dep)
    requires Conjuncts(base) <= Conjuncts(dep) && ContainsSymbol(dep, s) && !ContainsSymbol(base, s)
    ensures GoesBelow(Some(base), Some(dep), s)
  {
    var x, y := Form(dep), Form(base);
    GoesBelowExactly(Some(base), Some(dep), s);
    FormIsPlain(Some(base));
    NonNoFormIs(Some(base));
    NoDuplicatesLeft(Form(base));
    DuplicateFreeOnce(y);
    assert IsGate(And, dep) by {
      AnyConjunct(base);
      if !IsGate(And, dep) {
        assert dep in Conjuncts(base);
        ContainedConjunct(base, dep, s);
      }
    }
    forall n
      ensures Operands(And, y)[n] <= Operands(And, x)[n]
    {
      FormOperands(base, n);
      FormOperands(dep, n);
    }
    assert Operands(And, y) <= Operands(And, x);
  }

  lemma {:induction false} AnyConjunct(e: Expr)
    ensures Conjuncts(e) != {}
  {
    if IsGate(And, e) {
      AnyConjunct(e.l);
    }
  }

  /** A level with an operand of the other gate first, on which nothing can be joined. */
  lemma {:induction false} QuietNestFirst(g: Gate, a: Expr, b: Expr)
    requires !b.Bin? && a.Bin? && a.op != g && DupsLevel(a.op, a, [], []) == Pass(a, 0)
    requires Join(g, a, b).None? && Join(g, b, a).None?
    ensures EliminateDups(Bin(g, a, b)) == Bin(g, a, b)
  {
    var t := Bin(g, a, b);
    OneStep(g, t);
    PutSame(g, t, [L]);
    PutSame(g, t, [R]);
    assert DupsLevel(g, t, [L], [L]) == Pass(t, 0);
    assert DupsLevel(g, t, [L], [R]) == JoinAt(g, t, [L], [R], Pass(a, 0));
    assert DupsLevel(g, t, [L], []) == Pass(t, 0);
    assert DupsLevel(g, t, [R], [L]) == Pass(t, 0);
    assert DupsLevel(g, t, [R], [R]) == Pass(t, 0);
    assert DupsLevel(g, t, [R], []) == Pass(t, 0);
    assert DupsLevel(g, t, [], []) == Pass(t, 0);
  }

  /** `(S || Q) && R` goes below a symbol S whose prompt depends on R. */
  lemma {:induction false} SourceExample(s: Symbol, q: Symbol, r: Symbol)
    requires s.stype == q.stype == r.stype == Boolean && s != q && s != r && q != r
    ensures GoesBelow(Some(Sym(r)), Some(Bin(And, Bin(Or, Sym(s), Sym(q)), Sym(r))), s)
  {
    var or := Bin(Or, Sym(s), Sym(q));
    var base, dep := Sym(r), Bin(And, or, Sym(r));
    NonNoFormIs(Some(base));
    NonNoFormIs(Some(dep));
    assert Form(Sym(s)) == Sym(s) && Form(Sym(q)) == Sym(q) && Form(base) == base;
    assert Form(or) == or && Form(dep) == dep;
    QuietLevel(Or, Sym(s), Sym(q));
    QuietNestFirst(And, or, base);
    assert Conjuncts(base) == {base} && Conjuncts(or) == {or};
    assert ContainsSymbol(Sym(s), s) && ContainsSymbol(or, s);
    ConjunctsAreTaken(base, dep, s);
  }

  // ---- What simplification can cost ----

  lemma {:induction false} TwoSteps(g: Gate, t: Expr)
    requires IsGate(g, t) && IsGate(g, t.l)
    ensures [] + [L] == [L] && [] + [R] == [R] && [L, L][1..] == [L] && [L, R][1..] == [R]
    ensures [L] + [L] == [L, L] && [L] + [R] == [L, R]
    ensures OnLevel(g, t, [L]) && OnLevel(g, t, [L, L]) && OnLevel(g, t, [L, R]) && OnLevel(g, t, [R])
    ensures At(g, t, [L]) == t.l && At(g, t, [L, L]) == t.l.l && At(g, t, [L, R]) == t.l.r && At(g, t, [R]) == t.r
    ensures forall x :: Put(g, t, [L, L], x) == Bin(g, Bin(g, x, t.l.r), t.r)
    ensures forall x :: Put(g, t, [L, R], x) == Bin(g, Bin(g, t.l.l, x), t.r)
  {
    OneStep(g, t);
    OneStep(g, t.l);
    assert OnLevel(g, t, [L, L]) && OnLevel(g, t, [L, R]);
    forall x
      ensures Put(g, t, [L, L], x) == Bin(g, Bin(g, x, t.l.r), t.r)
      ensures Put(g, t, [L, R], x) == Bin(g, Bin(g, t.l.l, x), t.r)
    {
      OnePut(g, t.l, x);
    }
  }

  /** A pass over three operands of which the first two are joined to the first. */
  lemma {:induction false} JoinFirstTwo(x: Expr, y: Expr, z: Expr)
    requires !x.Bin? && !y.Bin? && !z.Bin? && Join(And, x, y) == Some(x)
    requires Join(And, x, z).None? && Join(And, z, x).None?
    requires forall e :: e == x || e == z ==>
               Join(And, e, Sym(SYMBOL_YES)).None? && Join(And, Sym(SYMBOL_YES), e).None?
    requires !IsConstLeaf(x) && !IsConstLeaf(z)
    ensures EliminateDups(Bin(And, Bin(And, x, y), z)) == Bin(And, x, z)
  {
    var yes := Sym(SYMBOL_YES);
    var t, t1 := Bin(And, Bin(And, x, y), z), Bin(And, Bin(And, yes, x), z);
    TwoSteps(And, t);
    TwoSteps(And, Bin(And, Bin(And, yes, y), z));
    ThreeQuiet(yes, x, z);
    assert DupsLevel(And, t, [L, L], [L, L]) == Pass(t, 0);
    assert DupsLevel(And, t, [L, L], [L, R]) == Pass(t1, 1);
    assert DupsLevel(And, t, [L, L], [L]) == Pass(t1, 1);
    assert DupsLevel(And, t, [L, L], []) == Pass(t1, 1);
    assert DupsLevel(And, t, [L], []) == Pass(t1, 1);
    assert DupsLevel(And, t, [], []) == Pass(t1, 1);
    assert Yn(Bin(And, yes, x)) == x && Yn(t1) == Bin(And, x, z);
    QuietLevel(And, x, z);
  }

  lemma {:induction false} ThreeQuiet(x: Expr, y: Expr, z: Expr)
    requires !x.Bin? && !y.Bin? && !z.Bin?
    requires Join(And, x, z).None? && Join(And, z, x).None? && Join(And, y, z).None? && Join(And, z, y).None?
    requires Join(And, y, x).None?
    ensures var t := Bin(And, Bin(And, x, y), z);
            && OnLevel(And, t, [L, L]) && OnLevel(And, t, [L, R]) && OnLevel(And, t, [R])
            && DupsLevel(And, t, [L, L], [R]) == Pass(t, 0)
            && DupsLevel(And, t, [L, R], []) == Pass(t, 0) && DupsLevel(And, t, [R], []) == Pass(t, 0)
  {
    var t := Bin(And, Bin(And, x, y), z);
    TwoSteps(And, t);
    OnePut(And, t, z);
    assert DupsLevel(And, t, [L, R], [L, L]) == Pass(t, 0);
    assert DupsLevel(And, t, [L, R], [L, R]) == Pass(t, 0);
    assert DupsLevel(And, t, [L, R], [L]) == Pass(t, 0);
    assert DupsLevel(And, t, [L, R], [R]) == Pass(t, 0);
    assert DupsLevel(And, t, [R], [L, L]) == Pass(t, 0);
    assert DupsLevel(And, t, [R], [L, R]) == Pass(t, 0);
    assert DupsLevel(And, t, [R], [L]) == Pass(t, 0);
    assert DupsLevel(And, t, [R], [R]) == Pass(t, 0);
  }

  lemma {:induction false} RefusedForms(a: Symbol, s: Symbol)
    requires a.stype == s.stype == Tristate && a != s
    ensures var (base, other) := (Cmp(Unequal, a, SYMBOL_YES), Cmp(Unequal, s, SYMBOL_YES));
            && NonNoForm(Some(base)) == base
            && NonNoForm(Some(Bin(And, Bin(And, Not(Sym(a)), base), other))) ==
               Bin(And, Cmp(Equal, a, SYMBOL_NO), other)
  {
    var base, other := Cmp(Unequal, a, SYMBOL_YES), Cmp(Unequal, s, SYMBOL_YES);
    var inner := Bin(And, Not(Sym(a)), base);
    var x := Cmp(Equal, a, SYMBOL_NO);
    NonNoFormIs(Some(base));
    NonNoFormIs(Some(Bin(And, inner, other)));
    assert Form(Sym(a)) == Cmp(Unequal, a, SYMBOL_NO) && Form(Not(Sym(a))) == x;
    assert Form(base) == base && Form(other) == other && Form(inner) == Bin(And, x, base);
    ConstantsJoin(a, SYMBOL_NO, SYMBOL_YES);
    hide Form, NonNoForm;
    JoinFirstTwo(x, base, other);
  }

  lemma {:induction false} RefusedMentions(a: Symbol, s: Symbol)
    requires a.stype == s.stype == Tristate && a != s
    ensures var (base, other) := (Cmp(Unequal, a, SYMBOL_YES), Cmp(Unequal, s, SYMBOL_YES));
            var dep := Bin(And, Bin(And, Not(Sym(a)), base), other);
            && Conjuncts(base) <= Conjuncts(dep) && ContainsSymbol(dep, s) && !ContainsSymbol(base, s)
            && !DependsSymbol(dep, s) && NoModTest(base) && NoModTest(dep)
  {
    var base, other := Cmp(Unequal, a, SYMBOL_YES), Cmp(Unequal, s, SYMBOL_YES);
    var inner := Bin(And, Not(Sym(a)), base);
    assert Conjuncts(inner) == {Not(Sym(a)), base} && Conjuncts(base) == {base};
    assert !DependsSymbol(inner, s) && !DependsSymbol(other, s) && ContainsSymbol(other, s);
    assert NoModTest(inner) && NoModTest(other);
  }

  lemma {:induction false} RefusedOperands(x: Expr, y: Expr, z: Expr)
    requires x.Cmp? && y.Cmp? && z.Cmp? && z != x && z != y
    ensures !(Operands(And, z) <= Operands(And, Bin(And, x, y))) && z != Sym(SYMBOL_YES)
  {
    assert NormOf(z) != NormOf(x) && NormOf(z) != NormOf(y);
    assert Operands(And, Bin(And, x, y)) == multiset{NormOf(x), NormOf(y)};
    assert NormOf(z) in Operands(And, z) && NormOf(z) !in Operands(And, Bin(And, x, y));
  }

  /** When operands of the item are joined, an operand of the prompt's condition can be lost among them: `!A && A != y`
      becomes `A = n`, and the item is refused although it has the prompt's condition `A != y` as an operand. */
  lemma {:induction false} JoinedOperandIsRefused(a: Symbol, s: Symbol)
    requires a.stype == s.stype == Tristate && a != s
    ensures var (base, other) := (Cmp(Unequal, a, SYMBOL_YES), Cmp(Unequal, s, SYMBOL_YES));
            var dep := Bin(And, Bin(And, Not(Sym(a)), base), other);
            && Conjuncts(base) <= Conjuncts(dep) && ContainsSymbol(dep, s) && !ContainsSymbol(base, s)
            && !GoesBelow(Some(base), Some(dep), s)
  {
    var base, other := Cmp(Unequal, a, SYMBOL_YES), Cmp(Unequal, s, SYMBOL_YES);
    var dep := Bin(And, Bin(And, Not(Sym(a)), base), other);
    RefusedForms(a, s);
    RefusedMentions(a, s);
    RefusedOperands(Cmp(Equal, a, SYMBOL_NO), other, base);
    DependsExactly(dep, s);
    GoesBelowExactly(Some(base), Some(dep), s);
    hide *;
  }
}
