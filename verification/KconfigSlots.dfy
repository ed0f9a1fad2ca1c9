/**
 Duplicate operands removed in place (`expr_eliminate_dups1`, `expr_eliminate_dups`): two cursors of type
 `struct expr **` walk the same tree and overwrite the operands they point at. The result is the tree
 that `KconfigDups.EliminateDups` says.
 */
module KconfigSlots {
  import opened Options
  import opened KconfigExpr
  import opened KconfigEq
  import opened KconfigJoin
  import opened KconfigDups
  import opened KconfigNodes

  /** What a cursor points at: a variable that holds a node, or the left or right field of a gate. */
  datatype Slot = Root(n: Node) | LeftOf(n: Node) | RightOf(n: Node)

  function Get(slot: Slot): Node?
    reads if slot.Root? then {} else {slot.n}
  {
    match slot
    case Root(n) => n
    case LeftOf(n) => n.left
    case RightOf(n) => n.right
  }

  // ---- Places in a tree ----

  ghost function Sub(s: Shape, p: Path): Shape {
    if p == [] || !s.Two? then s else Sub(if p[0] == L then s.x else s.y, p[1..])
  }

  ghost function SlotAt(s: Shape, p: Path): Slot {
    if p == [] then Root(s.n)
    else if p[|p| - 1] == L then LeftOf(Sub(s, p[..|p| - 1]).n)
    else RightOf(Sub(s, p[..|p| - 1]).n)
  }

  ghost function PutShape(s: Shape, p: Path, x: Shape): Shape {
    if p == [] || !s.Two? then x
    else if p[0] == L then Two(s.n, PutShape(s.x, p[1..], x), s.y)
    else Two(s.n, s.x, PutShape(s.y, p[1..], x))
  }

  /** The nodes that are not below the place `p`. */
  ghost function Outside(s: Shape, p: Path): (r: set<Node>)
    ensures r <= Cells(s)
  {
    if p == [] || !s.Two? then {}
    else if p[0] == L then {s.n} + Outside(s.x, p[1..]) + Cells(s.y)
    else {s.n} + Cells(s.x) + Outside(s.y, p[1..])
  }

  /** Everything of the tree at `top` but what is below the place `p`, where the node `h` hangs. */
  ghost predicate Hole(g: Gate, s: Shape, top: Node, t: Expr, p: Path, h: Node)
    requires OnLevel(g, t, p)
    reads Outside(s, p)
    decreases p
  {
    if p == [] then top == h
    else
      && s.Two? && top == s.n && top.kind == GateK(g) && top.left != null && top.right != null
      && if p[0] == L then Hole(g, s.x, top.left, t.l, p[1..], h) && Stands(s.y, top.right, t.r)
         else Stands(s.x, top.left, t.l) && Hole(g, s.y, top.right, t.r, p[1..], h)
  }

  lemma {:induction false} StandsParts(s: Shape, n: Node, e: Expr)
    requires Stands(s, n, e)
    ensures Apart(s) && s.n == n && n in Cells(s)
  {
  }

  lemma {:induction false} OnLevelDown(g: Gate, t: Expr, p: Path)
    requires OnLevel(g, t, p) && p != []
    ensures IsGate(g, t) && OnLevel(g, Child(t, p[0]), p[1..]) && At(g, t, p) == At(g, Child(t, p[0]), p[1..])
  {
  }

  /** A tree splits at every place of the level into what hangs there and the rest. */
  lemma {:induction false} Opens(g: Gate, s: Shape, top: Node, t: Expr, p: Path)
    requires Stands(s, top, t) && OnLevel(g, t, p)
    ensures Hole(g, s, top, t, p, Sub(s, p).n)
    ensures Stands(Sub(s, p), Sub(s, p).n, At(g, t, p))
    ensures Outside(s, p) !! Cells(Sub(s, p)) && Outside(s, p) + Cells(Sub(s, p)) == Cells(s)
    decreases p
  {
    StandsParts(s, top, t);
    if p != [] {
      OnLevelDown(g, t, p);
      KindIs(top, s, t);
      GateParts(top, s, t);
      hide Stands, Cells, Apart;
      if p[0] == L {
        Opens(g, s.x, top.left, t.l, p[1..]);
      } else {
        Opens(g, s.y, top.right, t.r, p[1..]);
      }
    }
  }

  /** The rest of a tree and another tree at the free place make up a tree. */
  lemma {:induction false} Shuts(g: Gate, s: Shape, top: Node, t: Expr, p: Path, h: Node, x: Shape, e: Expr)
    requires Apart(s) && OnLevel(g, t, p) && Hole(g, s, top, t, p, h)
    requires Stands(x, h, e) && Cells(x) !! Outside(s, p)
    ensures Stands(PutShape(s, p, x), top, Put(g, t, p, e))
    ensures Cells(PutShape(s, p, x)) == Outside(s, p) + Cells(x)
    decreases p
  {
    if p != [] {
      OnLevelDown(g, t, p);
      hide Stands;
      if p[0] == L {
        Shuts(g, s.x, top.left, t.l, p[1..], h, x, e);
        GateJoined(top, PutShape(s.x, p[1..], x), s.y, g, Put(g, t.l, p[1..], e), t.r);
      } else {
        Shuts(g, s.y, top.right, t.r, p[1..], h, x, e);
        GateJoined(top, s.x, PutShape(s.y, p[1..], x), g, t.l, Put(g, t.r, p[1..], e));
      }
    }
  }

  // ---- Paths by their last step ----

  /** The gate that holds the operand at `p`. */
  lemma {:induction false} Holder(g: Gate, t: Expr, p: Path)
    requires OnLevel(g, t, p) && p != []
    ensures var pp := p[..|p| - 1];
            OnLevel(g, t, pp) && IsGate(g, At(g, t, pp)) && At(g, t, p) == Child(At(g, t, pp), p[|p| - 1])
    decreases p
  {
    OnLevelDown(g, t, p);
    if |p| > 1 {
      Holder(g, Child(t, p[0]), p[1..]);
      assert p[1..][..|p| - 2] == p[..|p| - 1][1..];
    }
  }

  lemma {:induction false} SubExtend(s: Shape, p: Path)
    requires p != [] && Sub(s, p[..|p| - 1]).Two?
    ensures Sub(s, p) == if p[|p| - 1] == L then Sub(s, p[..|p| - 1]).x else Sub(s, p[..|p| - 1]).y
    decreases p
  {
    if |p| > 1 && s.Two? {
      assert p[1..][..|p| - 2] == p[..|p| - 1][1..];
      SubExtend(if p[0] == L then s.x else s.y, p[1..]);
    }
  }

  /** Storing at `p` is storing a new gate one step above. */
  lemma {:induction false} PutLast(g: Gate, s: Shape, t: Expr, p: Path, x: Shape, e: Expr)
    requires OnLevel(g, t, p) && p != [] && Sub(s, p[..|p| - 1]).Two?
    requires OnLevel(g, t, p[..|p| - 1]) && At(g, t, p[..|p| - 1]).Bin?
    ensures var pp := p[..|p| - 1]; var h, k := Sub(s, pp), At(g, t, pp);
            && PutShape(s, p, x) == PutShape(s, pp, if p[|p| - 1] == L then Two(h.n, x, h.y) else Two(h.n, h.x, x))
            && Put(g, t, p, e) == Put(g, t, pp, if p[|p| - 1] == L then Bin(g, e, k.r) else Bin(g, k.l, e))
    decreases p
  {
    OnLevelDown(g, t, p);
    if |p| > 1 && s.Two? {
      assert p[1..][..|p| - 2] == p[..|p| - 1][1..];
      PutLast(g, if p[0] == L then s.x else s.y, Child(t, p[0]), p[1..], x, e);
    }
  }

  /** The place `p` as a gate and one of its two sides. */
  lemma {:induction false} Opened(g: Gate, s: Shape, top: Node, t: Expr, p: Path)
    requires Stands(s, top, t) && OnLevel(g, t, p) && p != []
    ensures OnLevel(g, t, p[..|p| - 1])
    ensures var pp := p[..|p| - 1]; var h, k := Sub(s, pp), At(g, t, pp);
            && h.Two? && IsGate(g, k) && At(g, t, p) == Child(k, p[|p| - 1])
            && Operands(h.n, h.x, h.y, g, k.l, k.r) && Hole(g, s, top, t, pp, h.n)
            && Cells(h) == {h.n} + Cells(h.x) + Cells(h.y) && Cells(h) + Outside(s, pp) == Cells(s)
            && Cells(h) !! Outside(s, pp)
            && SlotAt(s, p) == (if p[|p| - 1] == L then LeftOf(h.n) else RightOf(h.n))
            && Sub(s, p) == (if p[|p| - 1] == L then h.x else h.y)
  {
    var pp := p[..|p| - 1];
    Holder(g, t, p);
    Opens(g, s, top, t, pp);
    var h := Sub(s, pp);
    KindIs(h.n, h, At(g, t, pp));
    GateParts(h.n, h, At(g, t, pp));
    SubExtend(s, p);
  }

  /** A cursor at the place `p` shows the node there. */
  lemma {:induction false} SlotHolds(g: Gate, s: Shape, top: Node, t: Expr, p: Path)
    requires Stands(s, top, t) && OnLevel(g, t, p)
    ensures Get(SlotAt(s, p)) == Sub(s, p).n && SlotAt(s, p).n in Cells(s)
    ensures Stands(Sub(s, p), Sub(s, p).n, At(g, t, p)) && Cells(Sub(s, p)) <= Cells(s)
  {
    Opens(g, s, top, t, p);
    StandsParts(s, top, t);
    if p != [] {
      Opened(g, s, top, t, p);
      var h, k := Sub(s, p[..|p| - 1]), At(g, t, p[..|p| - 1]);
      StandsParts(h.x, h.n.left, k.l);
      StandsParts(h.y, h.n.right, k.r);
    }
  }

  lemma {:induction false} SlotInside(g: Gate, s: Shape, top: Node, t: Expr, p: Path)
    requires Stands(s, top, t) && OnLevel(g, t, p)
    ensures SlotAt(s, p).n in Cells(s)
  {
    SlotHolds(g, s, top, t, p);
  }

  /** `*slot = m`. */
  method StoreSlot(g: Gate, slot: Slot, m: Node, ghost top: Node, ghost s: Shape, ghost t: Expr, ghost p: Path,
          ghost x: Shape, ghost e: Expr)
    returns (ghost s': Shape)
    requires Stands(s, top, t) && OnLevel(g, t, p) && p != [] && slot == SlotAt(s, p)
    requires Stands(x, m, e) && Cells(x) !! Cells(s)
    modifies slot.n
    ensures s' == PutShape(s, p, x) && Stands(s', top, Put(g, t, p, e)) && Cells(s') <= Cells(s) + Cells(x)
  {
    Opened(g, s, top, t, p);
    StandsParts(s, top, t);
    ghost var pp := p[..|p| - 1];
    ghost var h, k := Sub(s, pp), At(g, t, pp);
    PutLast(g, s, t, p, x, e);
    hide Stands, Cells, OnLevel, At, Put, Sub, SlotAt, Outside, PutShape, Apart, Hole;
    assert allocated(Cells(x)) && allocated(Cells(h.x)) && allocated(Cells(h.y)) && allocated(Outside(s, pp));
    s' := PutShape(s, p, x);
    if slot.LeftOf? {
      slot.n.left := m;
      GateJoined(h.n, x, h.y, g, e, k.r);
      Shuts(g, s, top, t, pp, h.n, Two(h.n, x, h.y), Bin(g, e, k.r));
    } else {
      slot.n.right := m;
      GateJoined(h.n, h.x, x, g, k.l, e);
      Shuts(g, s, top, t, pp, h.n, Two(h.n, h.x, x), Bin(g, k.l, e));
    }
  }

  // ---- What storing keeps ----

  /** The nodes of the gates of a level are the same. */
  ghost predicate SameFrame(g: Gate, t: Expr, s: Shape, s': Shape)
    decreases t
  {
    IsGate(g, t) ==>
      && s.Two? && s'.Two? && s.n == s'.n
      && SameFrame(g, t.l, s.x, s'.x) && SameFrame(g, t.r, s.y, s'.y)
  }

  lemma {:induction false} FrameReflexive(g: Gate, s: Shape, top: Node, t: Expr)
    requires Stands(s, top, t)
    ensures SameFrame(g, t, s, s)
    decreases t
  {
    if IsGate(g, t) {
      StandsParts(s, top, t);
      GateParts(top, s, t);
      FrameReflexive(g, s.x, top.left, t.l);
      FrameReflexive(g, s.y, top.right, t.r);
    }
  }

  lemma {:induction false} FrameTransitive(g: Gate, t: Expr, u: Expr, s: Shape, s': Shape, s'': Shape)
    requires SameLevel(g, t, u) && SameFrame(g, t, s, s') && SameFrame(g, u, s', s'')
    ensures SameFrame(g, t, s, s'')
    decreases t
  {
    if IsGate(g, t) {
      FrameTransitive(g, t.l, u.l, s.x, s'.x, s''.x);
      FrameTransitive(g, t.r, u.r, s.y, s'.y, s''.y);
    }
  }

  lemma {:induction false} FramePut(g: Gate, t: Expr, s: Shape, p: Path, x: Shape)
    requires SameFrame(g, t, s, s) && OperandPath(g, t, p)
    ensures SameFrame(g, t, s, PutShape(s, p, x))
    decreases t
  {
    if p != [] {
      FramePut(g, Child(t, p[0]), if p[0] == L then s.x else s.y, p[1..], x);
    }
  }

  lemma {:induction false} FrameKeepsNode(g: Gate, t: Expr, s: Shape, s': Shape, p: Path)
    requires SameFrame(g, t, s, s') && OnLevel(g, t, p) && IsGate(g, At(g, t, p))
    ensures Sub(s, p).n == Sub(s', p).n
    decreases t
  {
    if p != [] {
      FrameKeepsNode(g, Child(t, p[0]), if p[0] == L then s.x else s.y, if p[0] == L then s'.x else s'.y, p[1..]);
    }
  }

  /** A cursor stays where it is while operands are stored. */
  lemma {:induction false} FrameKeepsSlot(g: Gate, t: Expr, s: Shape, s': Shape, p: Path)
    requires SameFrame(g, t, s, s') && OnLevel(g, t, p) && s.n == s'.n
    ensures SlotAt(s', p) == SlotAt(s, p)
  {
    if p != [] {
      Holder(g, t, p);
      FrameKeepsNode(g, t, s, s', p[..|p| - 1]);
    }
  }

  /** Different operands have different nodes. */
  lemma {:induction false} OperandsApart(g: Gate, s: Shape, top: Node, t: Expr, p: Path, q: Path)
    requires Stands(s, top, t) && OperandPath(g, t, p) && OperandPath(g, t, q) && p != q
    ensures Cells(Sub(s, p)) !! Cells(Sub(s, q)) && Sub(s, p).n != Sub(s, q).n
    decreases t
  {
    Disjoint(g, t, p, q);
    StandsParts(s, top, t);
    GateParts(top, s, t);
    hide Stands, Cells, Apart;
    if p[0] == q[0] {
      if p[0] == L {
        OperandsApart(g, s.x, top.left, t.l, p[1..], q[1..]);
      } else {
        OperandsApart(g, s.y, top.right, t.r, p[1..], q[1..]);
      }
    } else {
      SubIn(g, if p[0] == L then s.x else s.y, if p[0] == L then top.left else top.right, Child(t, p[0]), p[1..]);
      SubIn(g, if q[0] == L then s.x else s.y, if q[0] == L then top.left else top.right, Child(t, q[0]), q[1..]);
    }
  }

  lemma {:induction false} SubIn(g: Gate, s: Shape, top: Node, t: Expr, p: Path)
    requires Stands(s, top, t) && OnLevel(g, t, p)
    ensures Cells(Sub(s, p)) <= Cells(s) && Sub(s, p).n in Cells(Sub(s, p))
  {
    Opens(g, s, top, t, p);
    StandsParts(Sub(s, p), Sub(s, p).n, At(g, t, p));
  }

  // ---- Joining two operands ----

  /** A symbol, a comparison or the negation of one. */
  ghost predicate Simple(e: Expr) {
    e.Sym? || e.Cmp? || (e.Not? && (e.e.Sym? || e.e.Cmp?))
  }

  function LeafOf(n: Node): Option<Expr>
    reads n
  {
    match n.kind
    case SymK => Some(Sym(n.a))
    case CmpK(rel) => Some(Cmp(rel, n.a, n.b))
    case _ => None
  }

  /** What the join rules look at: a node, or a negation and its operand. */
  function Look(n: Node): Option<Expr>
    reads n, if n.left != null then {n.left} else {}
  {
    if n.kind != NotK then LeafOf(n)
    else if n.left == null then None
    else
      match LeafOf(n.left)
      case None => None
      case Some(x) => Some(Not(x))
  }

  lemma {:induction false} LookIs(n: Node, s: Shape, e: Expr)
    requires Stands(s, n, e)
    ensures Look(n) == if Simple(e) then Some(e) else None
  {
    KindIs(n, s, e);
    if n.kind.NotK? {
      KindIs(n.left, s.x, e.e);
    }
  }

  lemma {:induction false} RulesAreSimple(a: Expr, b: Expr)
    ensures !Simple(a) || !Simple(b) ==> OrRule(a, b) == None && AndRule(a, b) == None
    ensures OrRule(a, b).Some? ==> OrRule(a, b).value.Sym? || OrRule(a, b).value.Cmp?
    ensures AndRule(a, b).Some? ==> AndRule(a, b).value.Sym? || AndRule(a, b).value.Cmp?
  {
  }

  /** `expr_alloc_symbol` or `expr_alloc_comp`. */
  method AllocLeaf(e: Expr) returns (n: Node)
    requires e.Sym? || e.Cmp?
    ensures fresh(n) && Stands(Leaf(n), n, e)
  {
    if e.Sym? {
      n := new Node.Leaf(SymK, e.s, e.s);
    } else {
      n := new Node.Leaf(CmpK(e.rel), e.a, e.b);
    }
  }

  /** `expr_join_or` and `expr_join_and`: a new tree, or null. */
  method JoinNodes(g: Gate, n: Node, m: Node, ghost s: Shape, ghost t: Shape, ghost a: Expr, ghost b: Expr)
    returns (j: Node?, ghost x: Shape)
    requires Stands(s, n, a) && Stands(t, m, b)
    ensures j == null <==> Join(g, a, b) == None
    ensures j != null ==> Stands(x, j, Join(g, a, b).value) && (forall c :: c in Cells(x) ==> fresh(c))
  {
    j, x := null, s;
    assert allocated(Cells(s)) && allocated(Cells(t));
    var equal := EqualNodes(n, m, s, t, a, b);
    if equal {
      j, x := CopyNodes(n, s, a);
      return;
    }
    LookIs(n, s, a);
    LookIs(m, t, b);
    RulesAreSimple(a, b);
    hide Stands, Cells, OrRule, AndRule, Look;
    var look, look' := Look(n), Look(m);
    if look.Some? && look'.Some? {
      var rule := if g == Or then OrRule(look.value, look'.value) else AndRule(look.value, look'.value);
      if rule.Some? {
        j := AllocLeaf(rule.value);
        x := Leaf(j);
        StandsCells(j, rule.value);
      }
    }
  }

  lemma {:induction false} StandsCells(n: Node, e: Expr)
    requires Stands(Leaf(n), n, e)
    ensures Cells(Leaf(n)) == {n}
  {
  }

  // ---- One pass of the two cursors ----

  /** The cursors stand at the places `p` and `q` of the tree. */
  ghost predicate Places(g: Gate, s1: Slot, s2: Slot, s: Shape, t: Expr, p: Path, q: Path) {
    OnLevel(g, t, p) && OnLevel(g, t, q) && s1 == SlotAt(s, p) && s2 == SlotAt(s, q)
  }

  /** The tree `s'` that a pass over `s` left behind: its value is `u`, and cursors keep their places. */
  ghost predicate Passed(g: Gate, top: Node, s: Shape, t: Expr, s': Shape, u: Expr)
    reads Cells(s')
  {
    Stands(s', top, u) && SameLevel(g, t, u) && SameFrame(g, t, s, s') && s'.n == s.n && Size(u) <= Size(t)
  }

  lemma {:induction false} PlacesKept(g: Gate, s1: Slot, s2: Slot, top: Node, s: Shape, t: Expr, p: Path, q: Path,
          s': Shape, u: Expr)
    requires Places(g, s1, s2, s, t, p, q) && Passed(g, top, s, t, s', u)
    ensures Places(g, s1, s2, s', u, p, q)
  {
    SameLevelAt(g, t, u, p);
    SameLevelAt(g, t, u, q);
    FrameKeepsSlot(g, t, s, s', p);
    FrameKeepsSlot(g, t, s, s', q);
  }

  /** The two operands of the gate a cursor stands at. */
  lemma {:induction false} SlotBelow(g: Gate, s: Shape, t: Expr, p: Path)
    requires OnLevel(g, t, p) && IsGate(g, At(g, t, p))
    ensures OnLevel(g, t, p + [L]) && SlotAt(s, p + [L]) == LeftOf(Sub(s, p).n)
    ensures OnLevel(g, t, p + [R]) && SlotAt(s, p + [R]) == RightOf(Sub(s, p).n)
  {
    Extend(g, t, p);
    assert (p + [L])[..|p|] == p && (p + [R])[..|p|] == p;
  }

  lemma {:induction false} PassedTwice(g: Gate, top: Node, s: Shape, t: Expr, s': Shape, u: Expr, s'': Shape, v: Expr)
    requires SameLevel(g, t, u) && SameFrame(g, t, s, s') && s'.n == s.n && Size(u) <= Size(t)
    requires Passed(g, top, s', u, s'', v)
    ensures Passed(g, top, s, t, s'', v)
  {
    SameLevelTransitive(g, t, u, v);
    FrameTransitive(g, t, u, s, s', s'');
  }

  ghost function Rank(g: Gate, t: Expr, p: Path, q: Path): nat
    requires OnLevel(g, t, p) && OnLevel(g, t, q)
  {
    LevelSize(g, At(g, t, p)) + LevelSize(g, At(g, t, q))
  }

  /** The pass at a gate under the first cursor: its left operand, then its right one. */
  lemma {:induction false} FirstCase(g: Gate, t: Expr, p: Path, q: Path)
    requires OnLevel(g, t, p) && OnLevel(g, t, q) && IsGate(g, At(g, t, p))
    ensures OnLevel(g, t, p + [L]) && OnLevel(g, t, p + [R])
    ensures var r1 := DupsLevel(g, t, p + [L], q);
            && GoodPass(g, t, r1) && OnLevel(g, r1.tree, p + [R]) && OnLevel(g, r1.tree, q)
            && Rank(g, t, p + [L], q) < Rank(g, t, p, q) && Rank(g, r1.tree, p + [R], q) < Rank(g, t, p, q)
            && var r2 := DupsLevel(g, r1.tree, p + [R], q);
               DupsLevel(g, t, p, q) == Pass(r2.tree, r1.joins + r2.joins)
  {
    Extend(g, t, p);
    var r1 := DupsLevel(g, t, p + [L], q);
    SameLevelAt(g, t, r1.tree, p);
    SameLevelAt(g, t, r1.tree, q);
    Extend(g, r1.tree, p);
  }

  lemma {:induction false} SecondCase(g: Gate, t: Expr, p: Path, q: Path)
    requires OnLevel(g, t, p) && OnLevel(g, t, q) && !IsGate(g, At(g, t, p)) && IsGate(g, At(g, t, q))
    ensures OnLevel(g, t, q + [L]) && OnLevel(g, t, q + [R])
    ensures var r1 := DupsLevel(g, t, p, q + [L]);
            && GoodPass(g, t, r1) && OnLevel(g, r1.tree, p) && OnLevel(g, r1.tree, q + [R])
            && Rank(g, t, p, q + [L]) < Rank(g, t, p, q) && Rank(g, r1.tree, p, q + [R]) < Rank(g, t, p, q)
            && var r2 := DupsLevel(g, r1.tree, p, q + [R]);
               DupsLevel(g, t, p, q) == Pass(r2.tree, r1.joins + r2.joins)
  {
    Extend(g, t, q);
    var r1 := DupsLevel(g, t, p, q + [L]);
    SameLevelAt(g, t, r1.tree, p);
    SameLevelAt(g, t, r1.tree, q);
    Extend(g, r1.tree, q);
  }

  /** The first operand after the pass over its own levels. */
  ghost function InnerPass(a: Expr): Pass {
    if a.Bin? then DupsLevel(a.op, a, [], []) else Pass(a, 0)
  }

  /** The pass at two operands. */
  lemma {:induction false} OperandCase(g: Gate, t: Expr, p: Path, q: Path)
    requires OperandPath(g, t, p) && OperandPath(g, t, q)
    ensures p == q ==> DupsLevel(g, t, p, q) == Pass(t, 0)
    ensures p != q ==>
      var n := InnerPass(At(g, t, p));
      && !IsGate(g, n.tree) && GoodOperand(At(g, t, p), n) && DupsLevel(g, t, p, q) == JoinAt(g, t, p, q, n)
      && Size(At(g, t, p)) < Size(t)
  {
    if p != q {
      Disjoint(g, t, p, q);
    }
  }

  lemma {:induction false} PutTwice(g: Gate, t: Expr, p: Path, x: Expr, y: Expr)
    requires OnLevel(g, t, p)
    ensures OnLevel(g, Put(g, t, p, x), p) && Put(g, Put(g, t, p, x), p, y) == Put(g, t, p, y)
    decreases p
  {
    if p != [] {
      PutTwice(g, Child(t, p[0]), p[1..], x, y);
    }
  }

  /** The step at two operands in terms of the tree `u` in which the first one was replaced. */
  lemma {:induction false} JoinAtSteps(g: Gate, t: Expr, p: Path, q: Path, n: Pass)
    requires OperandPath(g, t, p) && OperandPath(g, t, q) && p != q
    requires !IsGate(g, n.tree) && GoodOperand(At(g, t, p), n)
    ensures var u := Put(g, t, p, n.tree);
            && OperandPath(g, u, p) && OperandPath(g, u, q) && At(g, u, p) == n.tree && At(g, u, q) == At(g, t, q)
            && SameLevel(g, t, u) && Size(u) <= Size(t)
            && var j := Join(g, n.tree, At(g, t, q));
               && OperandPath(g, Put(g, u, p, NeutralLeaf(g)), q)
               && (j.None? ==> JoinAt(g, t, p, q, n) == Pass(u, n.joins))
               && (j.Some? ==>
                      JoinAt(g, t, p, q, n) == Pass(Put(g, Put(g, u, p, NeutralLeaf(g)), q, j.value), n.joins + 1))
  {
    PutKeepsLevel(g, t, p, n.tree);
    PutFrame(g, t, p, q, n.tree);
    PutFrame(g, t, p, q, NeutralLeaf(g));
    PutTwice(g, t, p, n.tree, NeutralLeaf(g));
    if Join(g, n.tree, At(g, t, q)).Some? {
      JoinShape(g, n.tree, At(g, t, q));
    }
  }

  /** `expr_eliminate_dups1`, with the number of joins it adds to `trans_count`. */
  method DupsNodes(g: Gate, s1: Slot, s2: Slot, ghost top: Node, ghost s: Shape, ghost t: Expr, ghost p: Path,
          ghost q: Path)
    returns (joins: nat, ghost s': Shape)
    requires Stands(s, top, t) && Places(g, s1, s2, s, t, p, q)
    modifies Cells(s)
    ensures joins == DupsLevel(g, t, p, q).joins && Passed(g, top, s, t, s', DupsLevel(g, t, p, q).tree)
    ensures forall c :: c in Cells(s') ==> c in Cells(s) || fresh(c)
    decreases Size(t), Rank(g, t, p, q), 2
  {
    SlotHolds(g, s, top, t, p);
    SlotHolds(g, s, top, t, q);
    KindIs(Sub(s, p).n, Sub(s, p), At(g, t, p));
    KindIs(Sub(s, q).n, Sub(s, q), At(g, t, q));
    hide Stands, Cells, OnLevel, At, DupsLevel, SlotAt, Sub, Passed, Size;
    var n1, n2 := Get(s1), Get(s2);
    if n1.kind == GateK(g) {
      joins, s' := DupsFirst(g, n1, s1, s2, top, s, t, p, q);
    } else if n2.kind == GateK(g) {
      joins, s' := DupsSecond(g, n2, s1, s2, top, s, t, p, q);
    } else if n1 == n2 {
      joins, s' := 0, s;
      SameOperand(g, top, s, t, p, q);
    } else {
      joins, s' := DupsOperands(g, s1, s2, top, s, t, p, q);
    }
  }

  lemma {:induction false} SameOperand(g: Gate, top: Node, s: Shape, t: Expr, p: Path, q: Path)
    requires Stands(s, top, t) && OperandPath(g, t, p) && OperandPath(g, t, q) && Sub(s, p).n == Sub(s, q).n
    ensures DupsLevel(g, t, p, q) == Pass(t, 0) && Passed(g, top, s, t, s, t)
  {
    if p != q {
      OperandsApart(g, s, top, t, p, q);
    }
    OperandCase(g, t, p, q);
    FrameReflexive(g, s, top, t);
    SameLevelReflexive(g, t);
  }

  method DupsFirst(g: Gate, h: Node, ghost s1: Slot, s2: Slot, ghost top: Node, ghost s: Shape, ghost t: Expr,
          ghost p: Path, ghost q: Path)
    returns (joins: nat, ghost s': Shape)
    requires Stands(s, top, t) && Places(g, s1, s2, s, t, p, q) && IsGate(g, At(g, t, p)) && h == Sub(s, p).n
    modifies Cells(s)
    ensures joins == DupsLevel(g, t, p, q).joins && Passed(g, top, s, t, s', DupsLevel(g, t, p, q).tree)
    ensures forall c :: c in Cells(s') ==> c in Cells(s) || fresh(c)
    decreases Size(t), Rank(g, t, p, q), 1
  {
    FirstCase(g, t, p, q);
    SlotBelow(g, s, t, p);
    ghost var u := DupsLevel(g, t, p + [L], q).tree;
    hide Stands, Cells, OnLevel, At, DupsLevel, SlotAt, Sub, Rank, SameLevel, SameFrame, HasConst;
    ghost var sa;
    joins, sa := DupsNodes(g, LeftOf(h), s2, top, s, t, p + [L], q);
    PlacesKept(g, RightOf(h), s2, top, s, t, p + [R], q, sa, u);
    var more;
    more, s' := DupsNodes(g, RightOf(h), s2, top, sa, u, p + [R], q);
    PassedTwice(g, top, s, t, sa, u, s', DupsLevel(g, u, p + [R], q).tree);
    joins := joins + more;
  }

  method DupsSecond(g: Gate, h: Node, s1: Slot, ghost s2: Slot, ghost top: Node, ghost s: Shape, ghost t: Expr,
          ghost p: Path, ghost q: Path)
    returns (joins: nat, ghost s': Shape)
    requires Stands(s, top, t) && Places(g, s1, s2, s, t, p, q) && h == Sub(s, q).n
    requires !IsGate(g, At(g, t, p)) && IsGate(g, At(g, t, q))
    modifies Cells(s)
    ensures joins == DupsLevel(g, t, p, q).joins && Passed(g, top, s, t, s', DupsLevel(g, t, p, q).tree)
    ensures forall c :: c in Cells(s') ==> c in Cells(s) || fresh(c)
    decreases Size(t), Rank(g, t, p, q), 1
  {
    SecondCase(g, t, p, q);
    SlotBelow(g, s, t, q);
    ghost var u := DupsLevel(g, t, p, q + [L]).tree;
    hide Stands, Cells, OnLevel, At, DupsLevel, SlotAt, Sub, Rank, SameLevel, SameFrame, HasConst;
    ghost var sa;
    joins, sa := DupsNodes(g, s1, LeftOf(h), top, s, t, p, q + [L]);
    PlacesKept(g, s1, RightOf(h), top, s, t, p, q + [R], sa, u);
    var more;
    more, s' := DupsNodes(g, s1, RightOf(h), top, sa, u, p, q + [R]);
    PassedTwice(g, top, s, t, sa, u, s', DupsLevel(g, u, p, q + [R]).tree);
    joins := joins + more;
  }

  /** The step at two different operands. */
  method DupsOperands(g: Gate, s1: Slot, s2: Slot, ghost top: Node, ghost s: Shape, ghost t: Expr, ghost p: Path,
          ghost q: Path)
    returns (joins: nat, ghost s': Shape)
    requires Stands(s, top, t) && Places(g, s1, s2, s, t, p, q)
    requires OperandPath(g, t, p) && OperandPath(g, t, q) && p != q
    modifies Cells(s)
    ensures joins == DupsLevel(g, t, p, q).joins && Passed(g, top, s, t, s', DupsLevel(g, t, p, q).tree)
    ensures forall c :: c in Cells(s') ==> c in Cells(s) || fresh(c)
    decreases Size(t), Rank(g, t, p, q), 1
  {
    OperandCase(g, t, p, q);
    ghost var n := InnerPass(At(g, t, p));
    JoinAtSteps(g, t, p, q, n);
    ghost var u := Put(g, t, p, n.tree);
    hide Stands, Cells, OnLevel, At, DupsLevel, SlotAt, Sub, Rank, SameLevel, SameFrame, Put, Size, InnerPass, Join;
    hide JoinAt, IsGate;
    ghost var sa;
    joins, sa := InnerNodes(g, s1, top, s, t, p);
    PlacesKept(g, s1, s2, top, s, t, p, q, sa, u);
    var joined;
    joined, s' := JoinStep(g, s1, s2, top, sa, u, p, q);
    PassedTwice(g, top, s, t, sa, u, s', DupsLevel(g, t, p, q).tree);
    if joined {
      joins := joins + 1;
    }
  }

  /** The pass over the first operand's own levels. */
  method InnerNodes(g: Gate, s1: Slot, ghost top: Node, ghost s: Shape, ghost t: Expr, ghost p: Path)
    returns (joins: nat, ghost s': Shape)
    requires Stands(s, top, t) && OperandPath(g, t, p) && s1 == SlotAt(s, p)
    requires Size(At(g, t, p)) < Size(t) && !IsGate(g, InnerPass(At(g, t, p)).tree)
    modifies Cells(s)
    ensures joins == InnerPass(At(g, t, p)).joins && Stands(s', top, Put(g, t, p, InnerPass(At(g, t, p)).tree))
    ensures SameFrame(g, t, s, s') && s'.n == s.n
    ensures forall c :: c in Cells(s') ==> c in Cells(s) || fresh(c)
    decreases Size(t), 0, 0
  {
    SlotHolds(g, s, top, t, p);
    KindIs(Sub(s, p).n, Sub(s, p), At(g, t, p));
    FrameReflexive(g, s, top, t);
    StandsParts(s, top, t);
    Opens(g, s, top, t, p);
    ghost var a := At(g, t, p);
    hide Stands, Cells, OnLevel, At, DupsLevel, SlotAt, Sub, SameFrame, Size, Hole, Outside, PutShape, Put;
    var n1 := Get(s1);
    if n1.kind.GateK? {
      ghost var x;
      assert allocated(Outside(s, p));
      TopCursors(n1, Sub(s, p), a);
      joins, x := DupsNodes(n1.kind.g, Root(n1), Root(n1), n1, Sub(s, p), a, [], []);
      Shuts(g, s, top, t, p, n1, x, InnerPass(a).tree);
      s' := PutShape(s, p, x);
      FramePut(g, t, s, p, x);
      StandsParts(s', top, Put(g, t, p, InnerPass(a).tree));
    } else {
      joins, s' := 0, s;
      PutSame(g, t, p);
    }
  }

  lemma {:induction false} TopCursors(n: Node, s: Shape, a: Expr)
    requires Stands(s, n, a) && a.Bin?
    ensures Places(a.op, Root(n), Root(n), s, a, [], [])
  {
  }

  /** Joins two operands if a rule applies. */
  method JoinStep(g: Gate, s1: Slot, s2: Slot, ghost top: Node, ghost s: Shape, ghost t: Expr, ghost p: Path,
          ghost q: Path)
    returns (joined: bool, ghost s': Shape)
    requires Stands(s, top, t) && Places(g, s1, s2, s, t, p, q)
    requires OperandPath(g, t, p) && OperandPath(g, t, q) && p != q && OperandPath(g, Put(g, t, p, NeutralLeaf(g)), q)
    modifies Cells(s)
    ensures var j := Join(g, At(g, t, p), At(g, t, q));
            && joined == j.Some?
            && var v := if joined then Put(g, Put(g, t, p, NeutralLeaf(g)), q, j.value) else t;
               Passed(g, top, s, t, s', v)
    ensures forall c :: c in Cells(s') ==> c in Cells(s) || fresh(c)
  {
    SlotHolds(g, s, top, t, p);
    SlotHolds(g, s, top, t, q);
    ghost var a, b := At(g, t, p), At(g, t, q);
    SameOperandPasses(g, top, s, t);
    hide Stands, Cells, OnLevel, At, SlotAt, Sub, Size, Put, Join, IsGate, Passed;
    s' := s;
    var n1, n2 := Get(s1), Get(s2);
    assert allocated(Cells(s)) && allocated(Cells(Sub(s, p))) && allocated(Cells(Sub(s, q)));
    var j;
    ghost var x;
    j, x := JoinNodes(g, n1, n2, Sub(s, p), Sub(s, q), a, b);
    joined := j != null;
    if joined {
      s' := StoreJoin(g, s1, s2, j, top, s, t, p, q, x, Join(g, a, b).value);
    }
  }

  lemma {:induction false} SameOperandPasses(g: Gate, top: Node, s: Shape, t: Expr)
    requires Stands(s, top, t)
    ensures Passed(g, top, s, t, s, t)
  {
    FrameReflexive(g, s, top, t);
    SameLevelReflexive(g, t);
  }

  /** `e1 = <neutral>; e2 = tmp`. */
  method StoreJoin(g: Gate, s1: Slot, s2: Slot, j: Node, ghost top: Node, ghost s: Shape, ghost t: Expr,
          ghost p: Path, ghost q: Path, ghost x: Shape, ghost e: Expr)
    returns (ghost s': Shape)
    requires Stands(s, top, t) && Places(g, s1, s2, s, t, p, q)
    requires OperandPath(g, t, p) && OperandPath(g, t, q) && p != q && OperandPath(g, Put(g, t, p, NeutralLeaf(g)), q)
    requires Stands(x, j, e) && Cells(x) !! Cells(s) && Join(g, At(g, t, p), At(g, t, q)) == Some(e)
    modifies Cells(s)
    ensures Passed(g, top, s, t, s', Put(g, Put(g, t, p, NeutralLeaf(g)), q, e))
    ensures forall c :: c in Cells(s') ==> c in Cells(s) || c in Cells(x) || fresh(c)
  {
    StoreJoinKeeps(g, t, p, q, e);
    SlotInside(g, s, top, t, p);
    SlotInside(g, s, top, t, q);
    ghost var u := Put(g, t, p, NeutralLeaf(g));
    hide Stands, Cells, OnLevel, At, SlotAt, Sub, Size, Put, Join, IsGate, SameFrame, SameLevel;
    assert allocated(Cells(x)) && allocated(Cells(s));
    var leaf := NewLeaf(if g == Or then SYMBOL_NO else SYMBOL_YES);
    StandsCells(leaf, NeutralLeaf(g));
    ghost var sb := StoreOperand(g, s1, leaf, top, s, t, p, Leaf(leaf), NeutralLeaf(g));
    FrameKeepsSlot(g, t, s, sb, q);
    s' := StoreOperand(g, s2, j, top, sb, u, q, x, e);
    FrameTransitive(g, t, u, s, sb, s');
  }

  /** `StoreSlot` at an operand, after which the other cursor stands where it did. */
  method StoreOperand(g: Gate, slot: Slot, m: Node, ghost top: Node, ghost s: Shape, ghost t: Expr, ghost p: Path,
          ghost x: Shape, ghost e: Expr)
    returns (ghost s': Shape)
    requires Stands(s, top, t) && OperandPath(g, t, p) && p != [] && slot == SlotAt(s, p)
    requires Stands(x, m, e) && Cells(x) !! Cells(s)
    modifies slot.n
    ensures Stands(s', top, Put(g, t, p, e)) && Cells(s') <= Cells(s) + Cells(x)
    ensures SameFrame(g, t, s, s') && s'.n == s.n && slot.n in Cells(s)
  {
    SlotHolds(g, s, top, t, p);
    StandsParts(s, top, t);
    FrameReflexive(g, s, top, t);
    hide Stands, Cells, OnLevel, At, SlotAt, Sub, Put, PutShape, SameFrame;
    s' := StoreSlot(g, slot, m, top, s, t, p, x, e);
    FramePut(g, t, s, p, x);
    StandsParts(s', top, Put(g, t, p, e));
  }

  lemma {:induction false} StoreJoinKeeps(g: Gate, t: Expr, p: Path, q: Path, e: Expr)
    requires OperandPath(g, t, p) && OperandPath(g, t, q) && p != q && OperandPath(g, Put(g, t, p, NeutralLeaf(g)), q)
    requires Join(g, At(g, t, p), At(g, t, q)) == Some(e)
    ensures var u := Put(g, t, p, NeutralLeaf(g)); var v := Put(g, u, q, e);
            SameLevel(g, t, u) && SameLevel(g, t, v) && Size(v) <= Size(t)
    ensures p != [] && q != []
  {
    var n := NeutralLeaf(g);
    Disjoint(g, t, p, q);
    PutKeepsLevel(g, t, p, n);
    PutFrame(g, t, p, q, n);
    JoinShape(g, At(g, t, p), At(g, t, q));
    PutKeepsLevel(g, Put(g, t, p, n), q, e);
    SameLevelTransitive(g, t, Put(g, t, p, n), Put(g, Put(g, t, p, n), q, e));
  }

  // ---- The whole procedure ----

  lemma {:induction false} PassOnce(e: Expr)
    ensures var r := InnerPass(e);
            EliminateDups(e) == if r.joins == 0 then r.tree else EliminateDups(Yn(r.tree))
    ensures InnerPass(e).joins > 0 ==> Size(Yn(InnerPass(e).tree)) < Size(e)
  {
  }

  /** `expr_eliminate_dups`: passes until one joins nothing. The root node stays. */
  method EliminateDupsNodes(n: Node, ghost s: Shape, ghost e: Expr) returns (ghost s': Shape)
    requires Stands(s, n, e)
    modifies Cells(s)
    ensures Stands(s', n, EliminateDups(e)) && (forall c :: c in Cells(s') ==> c in Cells(s) || fresh(c))
  {
    hide Stands, Cells, EliminateDups, InnerPass, Yn, Size;
    s' := s;
    ghost var cur := e;
    while true
      invariant Stands(s', n, cur) && EliminateDups(cur) == EliminateDups(e)
      invariant forall c :: c in Cells(s') ==> c in Cells(s) || fresh(c)
      decreases Size(cur)
    {
      PassOnce(cur);
      var joins;
      joins, s' := PassNodes(n, s', cur);
      if joins == 0 {
        break;
      }
      ghost var r := InnerPass(cur).tree;
      s' := EliminateYn(n, s', r);
      cur := Yn(r);
    }
  }

  method PassNodes(n: Node, ghost s: Shape, ghost e: Expr) returns (joins: nat, ghost s': Shape)
    requires Stands(s, n, e)
    modifies Cells(s)
    ensures joins == InnerPass(e).joins && Stands(s', n, InnerPass(e).tree)
    ensures forall c :: c in Cells(s') ==> c in Cells(s) || fresh(c)
  {
    KindIs(n, s, e);
    joins, s' := 0, s;
    if n.kind.GateK? {
      TopCursors(n, s, e);
      hide Stands, Cells, DupsLevel;
      joins, s' := DupsNodes(n.kind.g, Root(n), Root(n), n, s, e, [], []);
    }
  }
}
