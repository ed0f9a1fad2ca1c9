/**
 What equality of expressions decides: whether two expressions are the same up to the order and the grouping of the
 operands of their gates. And what is left of duplicates when they have been removed.
 */
module KconfigSame {
  import opened KconfigExpr
  import opened KconfigEq
  import opened KconfigJoin
  import opened KconfigDups

  /** An expression without order and grouping: a gate has a multiset of operands that are no gates of its kind. */
  datatype Norm =
    | SymN(s: Symbol)
    | CmpN(rel: Relation, a: Symbol, b: Symbol)
    | NotN(e: Norm)
    | GateN(op: Gate, operands: multiset<Norm>)

  ghost function NormOf(e: Expr): Norm
    decreases e, 0
  {
    match e
    case Sym(s) => SymN(s)
    case Cmp(rel, a, b) => CmpN(rel, a, b)
    case Not(x) => NotN(NormOf(x))
    case Bin(g, l, r) => GateN(g, Operands(g, l) + Operands(g, r))
  }

  /** The operands of the level of gate `g`, each as often as it occurs; y under `&&` and n under `||` are none. */
  ghost function Operands(g: Gate, e: Expr): multiset<Norm>
    decreases e, 1
  {
    if IsGate(g, e) then Operands(g, e.l) + Operands(g, e.r)
    else if e == NeutralLeaf(g) then multiset{}
    else multiset{NormOf(e)}
  }

  /** No gate has the operand y or n, however deep. */
  predicate Plain(e: Expr) {
    match e
    case Bin(_, l, r) => !IsConstLeaf(l) && !IsConstLeaf(r) && Plain(l) && Plain(r)
    case Not(x) => Plain(x)
    case _ => true
  }

  /** So far a level is worked on: each operand is plain or has become neutral. */
  predicate PlainLevel(g: Gate, e: Expr) {
    if IsGate(g, e) then PlainLevel(g, e.l) && PlainLevel(g, e.r)
    else e == NeutralLeaf(g) || (!IsConstLeaf(e) && Plain(e))
  }

  lemma {:induction false} PlainIsLevel(g: Gate, e: Expr)
    requires Plain(e) && !IsConstLeaf(e)
    ensures PlainLevel(g, e)
  {
    if IsGate(g, e) {
      PlainIsLevel(g, e.l);
      PlainIsLevel(g, e.r);
    }
  }

  /** `y` is what is left of `b`, and `x` of `a`, when the same has been taken from both until nothing is common. */
  ghost predicate Cancelled(a: multiset<Norm>, b: multiset<Norm>, x: multiset<Norm>, y: multiset<Norm>) {
    x <= a && y <= b && a - x == b - y && x !! y
  }

  lemma {:induction false} CancelTwice(a1: multiset<Norm>, a2: multiset<Norm>, x1: multiset<Norm>,
          x2: multiset<Norm>, b: multiset<Norm>, y1: multiset<Norm>, y2: multiset<Norm>)
    requires Cancelled(a1, b, x1, y1) && Cancelled(a2, y1, x2, y2)
    ensures Cancelled(a1 + a2, b, x1 + x2, y2)
  {
    assert (a1 + a2) - (x1 + x2) == (a1 - x1) + (a2 - x2);
    assert b - y2 == (b - y1) + (y1 - y2);
    assert (x1 + x2) !! y2;
  }

  lemma {:induction false} CancelSwaps(a: multiset<Norm>, b: multiset<Norm>, x: multiset<Norm>, y: multiset<Norm>)
    requires Cancelled(a, b, x, y)
    ensures Cancelled(b, a, y, x)
  {
  }

  /** Cancelling takes common operands from both sides until there are none. */
  lemma {:induction false} CancelIsComplete(g: Gate, a: Expr, b: Expr)
    requires PlainLevel(g, a) && PlainLevel(g, b)
    ensures var (x, y) := CancelOperands(g, a, b);
            && PlainLevel(g, x) && PlainLevel(g, y) && IsGate(g, x) == IsGate(g, a) && IsGate(g, y) == IsGate(g, b)
            && Cancelled(Operands(g, a), Operands(g, b), Operands(g, x), Operands(g, y))
    decreases Size(a) + Size(b), if IsGate(g, a) || IsGate(g, b) then 0 else 3
  {
    if IsGate(g, a) {
      var (l, b1) := CancelOperands(g, a.l, b);
      var (r, b2) := CancelOperands(g, a.r, b1);
      CancelIsComplete(g, a.l, b);
      CancelIsComplete(g, a.r, b1);
      CancelTwice(Operands(g, a.l), Operands(g, a.r), Operands(g, l), Operands(g, r),
                  Operands(g, b), Operands(g, b1), Operands(g, b2));
    } else if IsGate(g, b) {
      var (a1, l) := CancelOperands(g, a, b.l);
      var (a2, r) := CancelOperands(g, a1, b.r);
      CancelIsComplete(g, a, b.l);
      CancelIsComplete(g, a1, b.r);
      CancelSwaps(Operands(g, a), Operands(g, b.l), Operands(g, a1), Operands(g, l));
      CancelSwaps(Operands(g, a1), Operands(g, b.r), Operands(g, a2), Operands(g, r));
      CancelTwice(Operands(g, b.l), Operands(g, b.r), Operands(g, l), Operands(g, r),
                  Operands(g, a), Operands(g, a1), Operands(g, a2));
      CancelSwaps(Operands(g, b), Operands(g, a), Operands(g, l) + Operands(g, r), Operands(g, a2));
    } else {
      if a != NeutralLeaf(g) && b != NeutralLeaf(g) {
        EqIsSame(a, b);
      }
      CancelLeaves(g, a, b);
    }
    hide *;
  }

  lemma {:induction false} CancelLeaves(g: Gate, a: Expr, b: Expr)
    requires PlainLevel(g, a) && PlainLevel(g, b) && !IsGate(g, a) && !IsGate(g, b)
    requires a != NeutralLeaf(g) && b != NeutralLeaf(g) ==> (ExprEq(a, b) <==> NormOf(a) == NormOf(b))
    ensures var (x, y) := CancelOperands(g, a, b);
            && PlainLevel(g, x) && PlainLevel(g, y) && !IsGate(g, x) && !IsGate(g, y)
            && Cancelled(Operands(g, a), Operands(g, b), Operands(g, x), Operands(g, y))
  {
    var n := NeutralLeaf(g);
    LeafCancels(g, a, b);
    hide ExprEq, CancelOperands, Plain;
    if a == n || b == n {
      assert CancelOperands(g, a, b) == (a, b);
    } else if NormOf(a) == NormOf(b) {
      assert Operands(g, a) == Operands(g, b) == multiset{NormOf(a)};
    } else {
      assert multiset{NormOf(a)} !! multiset{NormOf(b)};
    }
  }

  lemma {:induction false} LeafCancels(g: Gate, a: Expr, b: Expr)
    requires PlainLevel(g, a) && PlainLevel(g, b) && !IsGate(g, a) && !IsGate(g, b)
    ensures CancelOperands(g, a, b) ==
            if a != NeutralLeaf(g) && b != NeutralLeaf(g) && ExprEq(a, b) then (NeutralLeaf(g), NeutralLeaf(g))
            else (a, b)
  {
    hide Plain, EliminateEq;
  }

  /** Removing y and n removes what has become neutral and nothing else. */
  lemma {:induction false} YnOfLevel(g: Gate, e: Expr)
    requires PlainLevel(g, e)
    ensures Operands(g, Yn(e)) == Operands(g, e) && (Operands(g, e) == multiset{} <==> Yn(e) == NeutralLeaf(g))
    ensures Yn(e) == NeutralLeaf(g) || !IsConstLeaf(Yn(e))
  {
    if IsGate(g, e) {
      YnOfLevel(g, e.l);
      YnOfLevel(g, e.r);
      YnOfGate(g, e.l, e.r);
    } else if e != NeutralLeaf(g) {
      YnOfPlain(e);
    }
  }

  lemma {:induction false} YnOfGate(g: Gate, l: Expr, r: Expr)
    requires (Yn(l) == NeutralLeaf(g) || !IsConstLeaf(Yn(l))) && (Yn(r) == NeutralLeaf(g) || !IsConstLeaf(Yn(r)))
    ensures var e := Yn(Bin(g, l, r));
            if Yn(l) == NeutralLeaf(g) then e == Yn(r) else if Yn(r) == NeutralLeaf(g) then e == Yn(l)
            else e == Bin(g, Yn(l), Yn(r))
  {
  }

  lemma {:induction false} YnOfPlain(e: Expr)
    requires Plain(e)
    ensures Yn(e) == e
  {
    if e.Bin? {
      YnOfPlain(e.l);
      YnOfPlain(e.r);
    }
  }

  /** Two expressions without y and n operands are reported equal if and only if they are the same up to the order and
      the grouping of the operands of their gates. */
  lemma {:induction false} EqIsSame(a: Expr, b: Expr)
    requires Plain(a) && Plain(b)
    ensures ExprEq(a, b) <==> NormOf(a) == NormOf(b)
    decreases Size(a) + Size(b), 2
  {
    match (a, b)
    case (Not(x), Not(y)) => EqIsSame(x, y);
    case (Bin(g, _, _), Bin(h, _, _)) =>
      if g == h {
        PlainIsLevel(g, a);
        PlainIsLevel(g, b);
        CancelIsComplete(g, a, b);
        var (x, y) := CancelOperands(g, a, b);
        YnOfLevel(g, x);
        YnOfLevel(g, y);
        BothEmpty(Operands(g, a), Operands(g, b), Operands(g, x), Operands(g, y));
        assert EliminateEq(a, b) == (Yn(x), Yn(y));
      }
    case (_, _) =>
  }

  lemma {:induction false} BothEmpty(a: multiset<Norm>, b: multiset<Norm>, x: multiset<Norm>, y: multiset<Norm>)
    requires Cancelled(a, b, x, y)
    ensures a == b <==> x == y == multiset{}
    ensures x == y ==> x == multiset{}
  {
    assert a == (a - x) + x && b == (b - y) + y;
    assert x * y == multiset{};
    if x == y {
      assert x * x == x;
    }
  }

  // ---- Every expression equals itself ----

  /** All operands of the level are y or n. */
  predicate AllConst(g: Gate, e: Expr) {
    if IsGate(g, e) then AllConst(g, e.l) && AllConst(g, e.r) else IsConstLeaf(e)
  }

  /** The level with every other operand made neutral. */
  function Blank(g: Gate, e: Expr): (r: Expr)
    ensures AllConst(g, r)
  {
    if IsGate(g, e) then Bin(g, Blank(g, e.l), Blank(g, e.r))
    else if IsConstLeaf(e) then e
    else NeutralLeaf(g)
  }

  /** All operands before the one at `p` are y or n. */
  predicate ConstBefore(g: Gate, e: Expr, p: Path)
    requires OnLevel(g, e, p)
  {
    p == [] || ((p[0] == R ==> AllConst(g, e.l)) && ConstBefore(g, Child(e, p[0]), p[1..]))
  }

  /** y and n take part in no cancelling. */
  lemma {:induction false} ConstsStay(g: Gate, a: Expr, b: Expr)
    requires AllConst(g, a) || AllConst(g, b)
    ensures CancelOperands(g, a, b) == (a, b)
    decreases Size(a) + Size(b)
  {
    if IsGate(g, a) {
      ConstsStay(g, a.l, b);
      ConstsStay(g, a.r, b);
    } else if IsGate(g, b) {
      ConstsStay(g, a, b.l);
      ConstsStay(g, a, b.r);
    }
  }

  lemma {:induction false} PutChildren(g: Gate, b: Expr, p: Path, x: Expr, y: Expr)
    requires OnLevel(g, b, p) && IsGate(g, At(g, b, p))
    ensures OnLevel(g, b, p + [L]) && At(g, b, p + [L]) == At(g, b, p).l
    ensures var c := Put(g, b, p + [L], x);
            && OnLevel(g, c, p + [R]) && At(g, c, p + [R]) == At(g, b, p).r
            && Put(g, c, p + [R], y) == Put(g, b, p, Bin(g, x, y))
            && (ConstBefore(g, b, p) ==>
                  ConstBefore(g, b, p + [L]) && (AllConst(g, x) ==> ConstBefore(g, c, p + [R])))
  {
    if p == [] {
      assert [L][1..] == [] && [R][1..] == [];
    } else {
      assert (p + [L])[1..] == p[1..] + [L] && (p + [R])[1..] == p[1..] + [R];
      PutChildren(g, Child(b, p[0]), p[1..], x, y);
    }
  }

  /** Part of a level meets itself first. */
  lemma {:induction false} CancelSelf(g: Gate, a: Expr, b: Expr, p: Path)
    requires OnLevel(g, b, p) && At(g, b, p) == a && ConstBefore(g, b, p)
    ensures CancelOperands(g, a, b) == (Blank(g, a), Put(g, b, p, Blank(g, a)))
    decreases Size(a) + Size(b), if IsGate(g, a) || IsGate(g, b) then 0 else 3
  {
    if IsGate(g, a) {
      PutChildren(g, b, p, Blank(g, a.l), Blank(g, a.r));
      var b1 := Put(g, b, p + [L], Blank(g, a.l));
      CancelSelf(g, a.l, b, p + [L]);
      SizeAfter(g, a.l, b);
      CancelSelf(g, a.r, b1, p + [R]);
    } else if p != [] {
      var n := Blank(g, a);
      if p[0] == L {
        CancelSelf(g, a, b.l, p[1..]);
        ConstsStay(g, n, b.r);
      } else {
        ConstsStay(g, a, b.l);
        CancelSelf(g, a, b.r, p[1..]);
      }
    } else if !IsConstLeaf(a) {
      EqReflexive(a);
    }
  }

  lemma {:induction false} SizeAfter(g: Gate, a: Expr, b: Expr)
    ensures Size(CancelOperands(g, a, b).1) <= Size(b)
  {
  }

  lemma {:induction false} YnOfConsts(g: Gate, e: Expr)
    requires AllConst(g, e)
    ensures IsConstLeaf(Yn(e))
  {
    if IsGate(g, e) {
      YnOfConsts(g, e.l);
      YnOfConsts(g, e.r);
    }
  }

  /** Every expression, with or without y and n operands, is equal to itself. */
  lemma {:induction false} EqReflexive(e: Expr)
    ensures ExprEq(e, e)
    decreases Size(e) + Size(e), 2
  {
    match e
    case Not(x) => EqReflexive(x);
    case Bin(g, _, _) =>
      CancelSelf(g, e, e, []);
      YnOfConsts(g, Blank(g, e));
      assert EliminateEq(e, e) == (Yn(Blank(g, e)), Yn(Blank(g, e)));
    case _ =>
  }

  // ---- No duplicates are left ----

  /** On every level, however deep, operands at different places differ, and so do their forms without order and
      grouping unless they hold y or n operands. */
  ghost predicate DuplicateFree(e: Expr)
    decreases Size(e), 1
  {
    e.Bin? ==> LevelDuplicateFree(e.op, e, Size(e))
  }

  ghost predicate LevelDuplicateFree(g: Gate, t: Expr, n: nat)
    requires Size(t) <= n && IsGate(g, t)
    decreases n, 0
  {
    forall p: Path, q: Path :: OperandPath(g, t, p) && OperandPath(g, t, q) && p != q ==>
      (Disjoint(g, t, p, q);
       Different(At(g, t, p), At(g, t, q)) && DuplicateFree(At(g, t, p)))
  }

  ghost predicate Different(a: Expr, b: Expr) { a != b && (Plain(a) && Plain(b) ==> NormOf(a) != NormOf(b)) }

  lemma {:induction false} JoinedIsDuplicateFree(e: Expr)
    requires FullyJoined(e)
    ensures DuplicateFree(e)
    decreases Size(e)
  {
    if e.Bin? {
      var g := e.op;
      forall p: Path, q: Path | OperandPath(g, e, p) && OperandPath(g, e, q) && p != q
        ensures Size(At(g, e, p)) < Size(e) && Different(At(g, e, p), At(g, e, q)) && DuplicateFree(At(g, e, p))
      {
        Disjoint(g, e, p, q);
        var (x, y) := (At(g, e, p), At(g, e, q));
        assert LevelJoined(g, e, Size(e));
        assert Join(g, x, y).None? && FullyJoined(x);
        UnjoinedDiffer(g, x, y);
        JoinedIsDuplicateFree(x);
      }
    }
  }

  lemma {:induction false} UnjoinedDiffer(g: Gate, a: Expr, b: Expr)
    requires Join(g, a, b).None?
    ensures Different(a, b)
  {
    assert !ExprEq(a, b);
    hide ExprEq, Join;
    EqReflexive(a);
    if Plain(a) && Plain(b) {
      EqIsSame(a, b);
    }
  }

  /** Removing duplicates leaves none: no level of the result has the same operand twice, in whatever order and grouping
      it is written. */
  lemma {:induction false} NoDuplicatesLeft(e: Expr)
    ensures DuplicateFree(EliminateDups(e))
  {
    EliminateDupsIsComplete(e);
    JoinedIsDuplicateFree(EliminateDups(e));
  }
}
