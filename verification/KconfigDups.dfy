/**
 Removing duplicate operands in place (`expr_eliminate_dups1`, `expr_eliminate_dups`).

 The source walks one tree with two cursors at once and overwrites operands as it goes. Here a
 cursor is a path from the root of the level it walks, so both cursors see every change.
 */
module KconfigDups {
  import opened Options
  import opened KconfigExpr
  import opened KconfigEq
  import opened KconfigJoin

  datatype Side = L | R

  type Path = seq<Side>

  function Child(e: Expr, s: Side): Expr
    requires e.Bin?
  {
    if s == L then e.l else e.r
  }

  /** `p` leads from the root of `t` through nodes of gate `g` only. */
  predicate OnLevel(g: Gate, t: Expr, p: Path) {
    p == [] || (IsGate(g, t) && OnLevel(g, Child(t, p[0]), p[1..]))
  }

  function At(g: Gate, t: Expr, p: Path): Expr
    requires OnLevel(g, t, p)
  {
    if p == [] then t else At(g, Child(t, p[0]), p[1..])
  }

  function Put(g: Gate, t: Expr, p: Path, x: Expr): Expr
    requires OnLevel(g, t, p)
  {
    if p == [] then x
    else if p[0] == L then Bin(g, Put(g, t.l, p[1..], x), t.r)
    else Bin(g, t.l, Put(g, t.r, p[1..], x))
  }

  predicate OperandPath(g: Gate, t: Expr, p: Path) { OnLevel(g, t, p) && !IsGate(g, At(g, t, p)) }

  /** The same nodes of gate `g` in the same places; operands may differ. */
  predicate SameLevel(g: Gate, t: Expr, u: Expr) {
    if IsGate(g, t) then IsGate(g, u) && SameLevel(g, t.l, u.l) && SameLevel(g, t.r, u.r)
    else !IsGate(g, u)
  }

  function LevelSize(g: Gate, t: Expr): nat {
    if IsGate(g, t) then 1 + LevelSize(g, t.l) + LevelSize(g, t.r) else 1
  }

  datatype Pass = Pass(tree: Expr, joins: nat)

  /** What a pass that starts from `t` guarantees: the level keeps its shape, the size does not grow, no
      join means no change, and a join leaves a y or n operand to remove. */
  predicate GoodPass(g: Gate, t: Expr, r: Pass) {
    && SameLevel(g, t, r.tree)
    && Size(r.tree) <= Size(t)
    && (r.joins == 0 ==> r.tree == t)
    && (r.joins > 0 ==> HasConst(r.tree))
  }

  /** One run of the two cursors `p` and `q` over the level of gate `g` rooted at `t`. */
  function DupsLevel(g: Gate, t: Expr, p: Path, q: Path): (r: Pass)
    requires OnLevel(g, t, p) && OnLevel(g, t, q)
    ensures GoodPass(g, t, r)
    decreases Size(t), LevelSize(g, At(g, t, p)) + LevelSize(g, At(g, t, q))
  {
    var a, b := At(g, t, p), At(g, t, q);
    SameLevelReflexive(g, t);
    if IsGate(g, a) then
      Extend(g, t, p);
      var r1 := DupsLevel(g, t, p + [L], q);
      SameLevelAt(g, t, r1.tree, p); SameLevelAt(g, t, r1.tree, q);
      Extend(g, r1.tree, p);
      var r2 := DupsLevel(g, r1.tree, p + [R], q);
      SameLevelTransitive(g, t, r1.tree, r2.tree);
      Pass(r2.tree, r1.joins + r2.joins)
    else if IsGate(g, b) then
      Extend(g, t, q);
      var r1 := DupsLevel(g, t, p, q + [L]);
      SameLevelAt(g, t, r1.tree, p); SameLevelAt(g, t, r1.tree, q);
      Extend(g, r1.tree, q);
      var r2 := DupsLevel(g, r1.tree, p, q + [R]);
      SameLevelTransitive(g, t, r1.tree, r2.tree);
      Pass(r2.tree, r1.joins + r2.joins)
    else if p == q then
      Pass(t, 0)
    else
      Disjoint(g, t, p, q);
      var n := if a.Bin? then DupsLevel(a.op, a, [], []) else Pass(a, 0);
      JoinAt(g, t, p, q, n)
  }

  /** The step at two different operands, where `n` is the first one after its own levels were
      processed: store it, and if the two can be joined, store a neutral leaf and the join. */
  function JoinAt(g: Gate, t: Expr, p: Path, q: Path, n: Pass): (r: Pass)
    requires OperandPath(g, t, p) && OperandPath(g, t, q) && p != q
    requires !IsGate(g, n.tree) && GoodOperand(At(g, t, p), n)
    ensures GoodPass(g, t, r)
  {
    var j := Join(g, n.tree, At(g, t, q));
    StoreOperands(g, t, p, q, n);
    if j.None? then
      Pass(Put(g, t, p, n.tree), n.joins)
    else
      Pass(Put(g, Put(g, t, p, NeutralLeaf(g)), q, j.value), n.joins + 1)
  }

  predicate GoodOperand(a: Expr, n: Pass) {
    && Size(n.tree) <= Size(a)
    && (n.joins == 0 ==> n.tree == a)
    && (n.joins > 0 ==> HasConst(n.tree))
  }

  lemma {:induction false} StoreOperands(g: Gate, t: Expr, p: Path, q: Path, n: Pass)
    requires OperandPath(g, t, p) && OperandPath(g, t, q) && p != q
    requires !IsGate(g, n.tree) && GoodOperand(At(g, t, p), n)
    ensures GoodPass(g, t, Pass(Put(g, t, p, n.tree), n.joins))
    ensures var j := Join(g, n.tree, At(g, t, q));
            j.Some? ==>
              && OnLevel(g, Put(g, t, p, NeutralLeaf(g)), q)
              && GoodPass(g, t, Pass(Put(g, Put(g, t, p, NeutralLeaf(g)), q, j.value), n.joins + 1))
  {
    PutKeepsLevel(g, t, p, n.tree);
    PutSame(g, t, p);
    Disjoint(g, t, p, q);
    PutHasConst(g, t, p, n.tree);
    var j := Join(g, n.tree, At(g, t, q));
    if j.Some? {
      JoinShape(g, n.tree, At(g, t, q));
      PutKeepsLevel(g, t, p, NeutralLeaf(g));
      PutFrame(g, t, p, q, NeutralLeaf(g));
      var t1 := Put(g, t, p, NeutralLeaf(g));
      PutKeepsLevel(g, t1, q, j.value);
      SameLevelTransitive(g, t, t1, Put(g, t1, q, j.value));
      PutFrame(g, t1, q, p, j.value);
      LeafGivesConst(g, Put(g, t1, q, j.value), p);
    }
  }

  /** Repeats passes, removing y and n operands after each, until a pass joins nothing. */
  function EliminateDups(e: Expr): Expr
    decreases Size(e)
  {
    var r := if e.Bin? then DupsLevel(e.op, e, [], []) else Pass(e, 0);
    if r.joins == 0 then r.tree else EliminateDups(Yn(r.tree))
  }

  // ---- Paths ----

  lemma {:induction false} SameLevelReflexive(g: Gate, t: Expr)
    ensures SameLevel(g, t, t)
  {
    if IsGate(g, t) {
      SameLevelReflexive(g, t.l);
      SameLevelReflexive(g, t.r);
    }
  }

  lemma {:induction false} SameLevelTransitive(g: Gate, t: Expr, u: Expr, v: Expr)
    requires SameLevel(g, t, u) && SameLevel(g, u, v)
    ensures SameLevel(g, t, v)
  {
    if IsGate(g, t) {
      SameLevelTransitive(g, t.l, u.l, v.l);
      SameLevelTransitive(g, t.r, u.r, v.r);
    }
  }

  lemma {:induction false} SameLevelSize(g: Gate, t: Expr, u: Expr)
    requires SameLevel(g, t, u)
    ensures LevelSize(g, t) == LevelSize(g, u)
  {
    if IsGate(g, t) {
      SameLevelSize(g, t.l, u.l);
      SameLevelSize(g, t.r, u.r);
    }
  }

  /** A path of one tree is a path of any tree with the same level, and leads to the same kind of place. */
  lemma {:induction false} SameLevelAt(g: Gate, t: Expr, u: Expr, p: Path)
    requires SameLevel(g, t, u) && OnLevel(g, t, p)
    ensures OnLevel(g, u, p) && SameLevel(g, At(g, t, p), At(g, u, p))
    ensures LevelSize(g, At(g, t, p)) == LevelSize(g, At(g, u, p))
  {
    if p == [] {
      SameLevelSize(g, t, u);
    } else {
      SameLevelAt(g, Child(t, p[0]), Child(u, p[0]), p[1..]);
    }
  }

  lemma {:induction false} Extend(g: Gate, t: Expr, p: Path)
    requires OnLevel(g, t, p) && IsGate(g, At(g, t, p))
    ensures forall s: Side :: OnLevel(g, t, p + [s]) && At(g, t, p + [s]) == Child(At(g, t, p), s)
  {
    if p != [] {
      Extend(g, Child(t, p[0]), p[1..]);
    }
    forall s: Side
      ensures OnLevel(g, t, p + [s]) && At(g, t, p + [s]) == Child(At(g, t, p), s)
    {
      if p == [] {
        assert [s][1..] == [];
      } else {
        assert (p + [s])[1..] == p[1..] + [s];
      }
    }
  }

  /** Two different operands lie in separate parts of the tree. */
  lemma {:induction false} Disjoint(g: Gate, t: Expr, p: Path, q: Path)
    requires OperandPath(g, t, p) && OperandPath(g, t, q) && p != q
    ensures p != [] && q != []
    ensures Size(At(g, t, p)) + Size(At(g, t, q)) < Size(t)
  {
    if p[0] == q[0] {
      Disjoint(g, Child(t, p[0]), p[1..], q[1..]);
    } else {
      AtSize(g, Child(t, p[0]), p[1..]);
      AtSize(g, Child(t, q[0]), q[1..]);
    }
  }

  lemma {:induction false} AtSize(g: Gate, t: Expr, p: Path)
    requires OnLevel(g, t, p)
    ensures Size(At(g, t, p)) <= Size(t)
  {
    if p != [] {
      AtSize(g, Child(t, p[0]), p[1..]);
    }
  }

  lemma {:induction false} PutSame(g: Gate, t: Expr, p: Path)
    requires OnLevel(g, t, p)
    ensures Put(g, t, p, At(g, t, p)) == t
  {
    if p != [] {
      PutSame(g, Child(t, p[0]), p[1..]);
    }
  }

  lemma {:induction false} PutKeepsLevel(g: Gate, t: Expr, p: Path, x: Expr)
    requires OperandPath(g, t, p) && !IsGate(g, x)
    ensures SameLevel(g, t, Put(g, t, p, x))
    ensures OperandPath(g, Put(g, t, p, x), p) && At(g, Put(g, t, p, x), p) == x
    ensures Size(Put(g, t, p, x)) == Size(t) - Size(At(g, t, p)) + Size(x)
  {
    if p != [] {
      SameLevelReflexive(g, t);
      PutKeepsLevel(g, Child(t, p[0]), p[1..], x);
    }
  }

  /** Storing at one operand leaves the others as they were. */
  lemma {:induction false} PutFrame(g: Gate, t: Expr, p: Path, q: Path, x: Expr)
    requires OperandPath(g, t, p) && OperandPath(g, t, q) && p != q
    requires !IsGate(g, x)
    ensures OperandPath(g, Put(g, t, p, x), q)
    ensures At(g, Put(g, t, p, x), q) == At(g, t, q)
  {
    Disjoint(g, t, p, q);
    if p[0] == q[0] {
      PutFrame(g, Child(t, p[0]), p[1..], q[1..], x);
    }
  }

  /** Stores at different operands commute. */
  lemma {:induction false} PutCommutes(g: Gate, t: Expr, p: Path, q: Path, x: Expr, y: Expr)
    requires OperandPath(g, t, p) && OperandPath(g, t, q) && p != q
    requires !IsGate(g, x) && !IsGate(g, y)
    ensures OnLevel(g, Put(g, t, p, x), q) && OnLevel(g, Put(g, t, q, y), p)
    ensures Put(g, Put(g, t, p, x), q, y) == Put(g, Put(g, t, q, y), p, x)
  {
    PutFrame(g, t, p, q, x);
    PutFrame(g, t, q, p, y);
    Disjoint(g, t, p, q);
    if p[0] == q[0] {
      PutCommutes(g, Child(t, p[0]), p[1..], q[1..], x, y);
    }
  }

  lemma {:induction false} PutHasConst(g: Gate, t: Expr, p: Path, x: Expr)
    requires OperandPath(g, t, p)
    ensures HasConst(x) ==> HasConst(Put(g, t, p, x))
  {
    if p != [] {
      PutHasConst(g, Child(t, p[0]), p[1..], x);
    }
  }

  lemma {:induction false} LeafGivesConst(g: Gate, t: Expr, p: Path)
    requires OnLevel(g, t, p) && p != [] && At(g, t, p) == NeutralLeaf(g)
    ensures HasConst(t)
  {
    if |p| > 1 {
      LeafGivesConst(g, Child(t, p[0]), p[1..]);
    }
  }

  // ---- Soundness ----

  /** The value of a level is the value of one operand combined with the rest. */
  lemma {:induction false} PutValue(g: Gate, t: Expr, p: Path, x: Expr, env: Env)
    requires WellTyped(env) && OnLevel(g, t, p)
    ensures Eval(Put(g, t, p, x), env) == Apply(g, Eval(x, env), Eval(Put(g, t, p, NeutralLeaf(g)), env))
  {
    if p != [] {
      var n := NeutralLeaf(g);
      PutValue(g, Child(t, p[0]), p[1..], x, env);
      var v, rest := Eval(x, env), Eval(Put(g, Child(t, p[0]), p[1..], n), env);
      if p[0] == L {
        ApplyAssociates(g, v, rest, Eval(t.r, env));
      } else {
        ApplyCommutes(g, Eval(t.l, env), Apply(g, v, rest));
        ApplyAssociates(g, v, rest, Eval(t.l, env));
        ApplyCommutes(g, Eval(t.l, env), rest);
      }
    }
  }

  lemma {:induction false} PutClean(g: Gate, t: Expr, p: Path, x: Expr, env: Env)
    requires OnLevel(g, t, p) && CleanConstants(t, env)
    ensures CleanConstants(At(g, t, p), env)
    ensures CleanConstants(x, env) ==> CleanConstants(Put(g, t, p, x), env)
  {
    if p != [] {
      PutClean(g, Child(t, p[0]), p[1..], x, env);
    }
  }

  /** Replacing two operands by two others with the same combined value keeps the value of the level. */
  lemma {:induction false} PutPairValue(g: Gate, t: Expr, p: Path, q: Path, x: Expr, y: Expr, env: Env)
    requires WellTyped(env) && OperandPath(g, t, p) && OperandPath(g, t, q) && p != q
    requires !IsGate(g, x) && !IsGate(g, y)
    requires Apply(g, Eval(x, env), Eval(y, env)) == Apply(g, Eval(At(g, t, p), env), Eval(At(g, t, q), env))
    ensures OnLevel(g, Put(g, t, p, x), q)
    ensures Eval(Put(g, Put(g, t, p, x), q, y), env) == Eval(t, env)
  {
    var n := NeutralLeaf(g);
    var a, b := At(g, t, p), At(g, t, q);
    var rest := Rest(g, t, p, q, x, y, env);
    var rest' := Rest(g, t, p, q, a, b, env);
    PutFrame(g, t, p, q, a);
    PutSame(g, t, p);
    PutSame(g, t, q);
    Regroup3(g, Eval(x, env), Eval(y, env), rest);
    Regroup3(g, Eval(a, env), Eval(b, env), rest);
  }

  lemma {:induction false} Regroup3(g: Gate, x: Tri, y: Tri, z: Tri)
    ensures Apply(g, y, Apply(g, x, z)) == Apply(g, Apply(g, x, y), z)
  {
  }

  lemma {:induction false} Rest(g: Gate, t: Expr, p: Path, q: Path, x: Expr, y: Expr, env: Env) returns (rest: Tri)
    requires WellTyped(env) && OperandPath(g, t, p) && OperandPath(g, t, q) && p != q
    requires !IsGate(g, x) && !IsGate(g, y)
    ensures OnLevel(g, Put(g, t, p, x), q) && OnLevel(g, Put(g, t, q, NeutralLeaf(g)), p)
    ensures rest == Eval(Put(g, Put(g, t, q, NeutralLeaf(g)), p, NeutralLeaf(g)), env)
    ensures Eval(Put(g, Put(g, t, p, x), q, y), env) == Apply(g, Eval(y, env), Apply(g, Eval(x, env), rest))
  {
    var n := NeutralLeaf(g);
    PutFrame(g, t, p, q, x);
    PutFrame(g, t, q, p, n);
    PutValue(g, Put(g, t, p, x), q, y, env);
    PutCommutes(g, t, p, q, x, n);
    PutValue(g, Put(g, t, q, n), p, x, env);
    rest := Eval(Put(g, Put(g, t, q, n), p, n), env);
  }

  lemma {:induction false} JoinAtKeepsValue(g: Gate, t: Expr, p: Path, q: Path, n: Pass, env: Env)
    requires WellTyped(env) && OperandPath(g, t, p) && OperandPath(g, t, q) && p != q
    requires !IsGate(g, n.tree) && GoodOperand(At(g, t, p), n)
    requires CleanConstants(t, env) && CleanConstants(n.tree, env) && Eval(n.tree, env) == Eval(At(g, t, p), env)
    ensures var r := JoinAt(g, t, p, q, n); Eval(r.tree, env) == Eval(t, env) && CleanConstants(r.tree, env)
  {
    StoreOperands(g, t, p, q, n);
    PutClean(g, t, p, n.tree, env);
    PutClean(g, t, q, n.tree, env);
    var b := At(g, t, q);
    var j := Join(g, n.tree, b);
    if j.None? {
      PutValue(g, t, p, n.tree, env);
      PutValue(g, t, p, At(g, t, p), env);
      PutSame(g, t, p);
    } else {
      JoinShape(g, n.tree, b);
      JoinKeepsValue(g, n.tree, b, env);
      JoinClean(g, n.tree, b, env);
      PutPairValue(g, t, p, q, NeutralLeaf(g), j.value, env);
      PutClean(g, t, p, NeutralLeaf(g), env);
      PutClean(g, Put(g, t, p, NeutralLeaf(g)), q, j.value, env);
    }
  }

  /** One pass keeps the value of the tree. */
  lemma {:induction false} DupsLevelKeepsValue(g: Gate, t: Expr, p: Path, q: Path, env: Env)
    requires WellTyped(env) && CleanConstants(t, env)
    requires OnLevel(g, t, p) && OnLevel(g, t, q)
    ensures var r := DupsLevel(g, t, p, q); Eval(r.tree, env) == Eval(t, env) && CleanConstants(r.tree, env)
    decreases Size(t), LevelSize(g, At(g, t, p)) + LevelSize(g, At(g, t, q))
  {
    var a, b := At(g, t, p), At(g, t, q);
    SameLevelReflexive(g, t);
    if IsGate(g, a) {
      Extend(g, t, p);
      var r1 := DupsLevel(g, t, p + [L], q);
      SameLevelAt(g, t, r1.tree, p); SameLevelAt(g, t, r1.tree, q);
      Extend(g, r1.tree, p);
      DupsLevelKeepsValue(g, t, p + [L], q, env);
      DupsLevelKeepsValue(g, r1.tree, p + [R], q, env);
    } else if IsGate(g, b) {
      Extend(g, t, q);
      var r1 := DupsLevel(g, t, p, q + [L]);
      SameLevelAt(g, t, r1.tree, p); SameLevelAt(g, t, r1.tree, q);
      Extend(g, r1.tree, q);
      DupsLevelKeepsValue(g, t, p, q + [L], env);
      DupsLevelKeepsValue(g, r1.tree, p, q + [R], env);
    } else if p != q {
      Disjoint(g, t, p, q);
      PutClean(g, t, p, a, env);
      var n := if a.Bin? then DupsLevel(a.op, a, [], []) else Pass(a, 0);
      if a.Bin? {
        DupsLevelKeepsValue(a.op, a, [], [], env);
      }
      JoinAtKeepsValue(g, t, p, q, n, env);
    }
  }

  lemma {:induction false} YnClean(e: Expr, env: Env)
    requires CleanConstants(e, env)
    ensures CleanConstants(Yn(e), env)
  {
    if e.Bin? {
      YnClean(e.l, env);
      YnClean(e.r, env);
    }
  }

  /** Removing duplicates keeps the value of an expression in every assignment. */
  lemma {:induction false} EliminateDupsKeepsValue(e: Expr, env: Env)
    requires WellTyped(env) && CleanConstants(e, env)
    ensures Eval(EliminateDups(e), env) == Eval(e, env) && CleanConstants(EliminateDups(e), env)
    decreases Size(e)
  {
    var r := if e.Bin? then DupsLevel(e.op, e, [], []) else Pass(e, 0);
    if e.Bin? {
      DupsLevelKeepsValue(e.op, e, [], [], env);
    }
    if r.joins != 0 {
      YnKeepsValue(r.tree, env);
      YnClean(r.tree, env);
      EliminateDupsKeepsValue(Yn(r.tree), env);
    }
  }

  // ---- What is left after the last pass ----

  /** A pass that joins nothing has found no pair it could join. */
  lemma {:induction false} NoJoinMissed(g: Gate, t: Expr, p: Path, q: Path, p': Path, q': Path)
    requires OnLevel(g, t, p) && OnLevel(g, t, q)
    requires DupsLevel(g, t, p, q).joins == 0
    requires p <= p' && q <= q' && p' != q'
    requires OperandPath(g, t, p') && OperandPath(g, t, q')
    ensures Join(g, At(g, t, p'), At(g, t, q')).None?
    ensures At(g, t, p').Bin? ==> DupsLevel(At(g, t, p').op, At(g, t, p'), [], []).joins == 0
    decreases LevelSize(g, At(g, t, p)) + LevelSize(g, At(g, t, q))
  {
    var a, b := At(g, t, p), At(g, t, q);
    if IsGate(g, a) {
      Extend(g, t, p);
      var r1 := DupsLevel(g, t, p + [L], q);
      assert r1.tree == t;
      NextStep(g, t, p, p');
      NoJoinMissed(g, t, p + [p'[|p|]], q, p', q');
    } else {
      StopsAtOperand(g, t, p, p');
      if IsGate(g, b) {
        Extend(g, t, q);
        var r1 := DupsLevel(g, t, p, q + [L]);
        assert r1.tree == t;
        NextStep(g, t, q, q');
        NoJoinMissed(g, t, p, q + [q'[|q|]], p', q');
      } else {
        StopsAtOperand(g, t, q, q');
        Disjoint(g, t, p, q);
      }
    }
  }

  lemma {:induction false} NextStep(g: Gate, t: Expr, p: Path, p': Path)
    requires OnLevel(g, t, p) && IsGate(g, At(g, t, p)) && p <= p' && OperandPath(g, t, p')
    ensures |p| < |p'| && p + [p'[|p|]] <= p'
  {
    assert p != p';
  }

  lemma {:induction false} StopsAtOperand(g: Gate, t: Expr, p: Path, p': Path)
    requires OperandPath(g, t, p) && p <= p' && OnLevel(g, t, p')
    ensures p == p'
  {
    if p != [] {
      StopsAtOperand(g, Child(t, p[0]), p[1..], p'[1..]);
      assert p' == [p'[0]] + p'[1..] && p == [p[0]] + p[1..];
    }
  }

  /** No level of the expression, however deep, has two operands that could be joined. */
  ghost predicate FullyJoined(e: Expr)
    decreases Size(e), 1
  {
    e.Bin? ==> LevelJoined(e.op, e, Size(e))
  }

  ghost predicate LevelJoined(g: Gate, t: Expr, n: nat)
    requires Size(t) <= n && IsGate(g, t)
    decreases n, 0
  {
    forall p: Path, q: Path :: OperandPath(g, t, p) && OperandPath(g, t, q) && p != q ==>
      (Disjoint(g, t, p, q);
       Join(g, At(g, t, p), At(g, t, q)).None? && FullyJoined(At(g, t, p)))
  }

  lemma {:induction false} QuietPassIsFullyJoined(e: Expr)
    requires e.Bin? ==> DupsLevel(e.op, e, [], []).joins == 0
    ensures FullyJoined(e)
    decreases Size(e)
  {
    if e.Bin? {
      forall p: Path, q: Path | OperandPath(e.op, e, p) && OperandPath(e.op, e, q) && p != q
        ensures Join(e.op, At(e.op, e, p), At(e.op, e, q)).None? && Size(At(e.op, e, p)) < Size(e)
        ensures FullyJoined(At(e.op, e, p))
      {
        Disjoint(e.op, e, p, q);
        NoJoinMissed(e.op, e, [], [], p, q);
        QuietPassIsFullyJoined(At(e.op, e, p));
      }
    }
  }

  /** The result can be simplified no further: on every level every pair of different operands was
      compared and none can be joined. */
  lemma {:induction false} EliminateDupsIsComplete(e: Expr)
    ensures FullyJoined(EliminateDups(e))
    decreases Size(e)
  {
    var r := if e.Bin? then DupsLevel(e.op, e, [], []) else Pass(e, 0);
    if r.joins == 0 {
      QuietPassIsFullyJoined(e);
    } else {
      EliminateDupsIsComplete(Yn(r.tree));
    }
  }

  // ---- Operands are kept or made by joins ----

  /** Every operand, on every level, satisfies `P`. */
  predicate AllOperands(e: Expr, P: Expr -> bool) {
    if e.Bin? then AllOperands(e.l, P) && AllOperands(e.r, P) else P(e)
  }

  /** `P` holds of y and n and of whatever the rules make of operands that satisfy it. */
  ghost predicate ClosedUnderJoin(P: Expr -> bool) {
    && P(Sym(SYMBOL_YES)) && P(Sym(SYMBOL_NO))
    && forall g: Gate, a: Expr, b: Expr :: !a.Bin? && !b.Bin? && P(a) && P(b) && Join(g, a, b).Some? ==>
         !Join(g, a, b).value.Bin? && P(Join(g, a, b).value)
  }

  lemma {:induction false} PutOperands(g: Gate, t: Expr, p: Path, x: Expr, P: Expr -> bool)
    requires OnLevel(g, t, p) && AllOperands(t, P)
    ensures AllOperands(At(g, t, p), P)
    ensures AllOperands(x, P) ==> AllOperands(Put(g, t, p, x), P)
  {
    if p != [] {
      PutOperands(g, Child(t, p[0]), p[1..], x, P);
    }
  }

  lemma {:induction false} JoinOperands(g: Gate, a: Expr, b: Expr, P: Expr -> bool)
    requires ClosedUnderJoin(P) && AllOperands(a, P) && AllOperands(b, P) && Join(g, a, b).Some?
    ensures AllOperands(Join(g, a, b).value, P)
  {
    if a.Bin? || b.Bin? {
      assert Join(g, a, b).value == a;
    }
  }

  lemma {:induction false} DupsLevelOperands(g: Gate, t: Expr, p: Path, q: Path, P: Expr -> bool)
    requires ClosedUnderJoin(P) && AllOperands(t, P)
    requires OnLevel(g, t, p) && OnLevel(g, t, q)
    ensures AllOperands(DupsLevel(g, t, p, q).tree, P)
    decreases Size(t), LevelSize(g, At(g, t, p)) + LevelSize(g, At(g, t, q))
  {
    var a, b := At(g, t, p), At(g, t, q);
    SameLevelReflexive(g, t);
    if IsGate(g, a) {
      Extend(g, t, p);
      var r1 := DupsLevel(g, t, p + [L], q);
      SameLevelAt(g, t, r1.tree, p); SameLevelAt(g, t, r1.tree, q);
      Extend(g, r1.tree, p);
      DupsLevelOperands(g, t, p + [L], q, P);
      DupsLevelOperands(g, r1.tree, p + [R], q, P);
    } else if IsGate(g, b) {
      Extend(g, t, q);
      var r1 := DupsLevel(g, t, p, q + [L]);
      SameLevelAt(g, t, r1.tree, p); SameLevelAt(g, t, r1.tree, q);
      Extend(g, r1.tree, q);
      DupsLevelOperands(g, t, p, q + [L], P);
      DupsLevelOperands(g, r1.tree, p, q + [R], P);
    } else if p != q {
      Disjoint(g, t, p, q);
      PutOperands(g, t, p, a, P);
      PutOperands(g, t, q, b, P);
      var n := if a.Bin? then DupsLevel(a.op, a, [], []) else Pass(a, 0);
      if a.Bin? {
        DupsLevelOperands(a.op, a, [], [], P);
      }
      StoreOperands(g, t, p, q, n);
      PutOperands(g, t, p, n.tree, P);
      var j := Join(g, n.tree, b);
      if j.Some? {
        JoinOperands(g, n.tree, b, P);
        PutOperands(g, t, p, NeutralLeaf(g), P);
        PutOperands(g, Put(g, t, p, NeutralLeaf(g)), q, j.value, P);
      }
    }
  }

  lemma {:induction false} YnOperands(e: Expr, P: Expr -> bool)
    requires ClosedUnderJoin(P) && AllOperands(e, P)
    ensures AllOperands(Yn(e), P)
  {
    if e.Bin? {
      YnOperands(e.l, P);
      YnOperands(e.r, P);
    }
  }

  /** Whatever holds of all operands and is kept by the join rules holds of all operands of the result. */
  lemma {:induction false} EliminateDupsOperands(e: Expr, P: Expr -> bool)
    requires ClosedUnderJoin(P) && AllOperands(e, P)
    ensures AllOperands(EliminateDups(e), P)
    decreases Size(e)
  {
    var r := if e.Bin? then DupsLevel(e.op, e, [], []) else Pass(e, 0);
    if e.Bin? {
      DupsLevelOperands(e.op, e, [], [], P);
    }
    if r.joins != 0 {
      YnOperands(r.tree, P);
      EliminateDupsOperands(Yn(r.tree), P);
    }
  }
}
