/**
 What `menu_finalize` makes of the menus, on forests: which siblings go below a symbol, and how groups without a
 prompt are flattened.
 */
module KconfigArrange {
  import opened Options
  import opened KconfigExpr
  import opened KconfigSubmenu
  import opened KconfigForest
  import opened KconfigDeps

  // ---- Flattening, on forests ----

  /** The children of nodes without a prompt move up behind them. */
  ghost function Flat(f: Forest): Forest
    decreases Count(f)
  {
    match f
    case Nil => Nil
    case Node(m, k, r) =>
      ConcatNodes(k, r);
      if k.Node? && !m.hasPrompt then Node(m, Nil, Flat(Concat(k, r))) else Node(m, k, Flat(r))
  }

  /** Only nodes with a prompt have children. */
  ghost predicate Prompted(f: Forest) {
    f.Node? ==> (f.kids.Node? ==> f.m.hasPrompt) && Prompted(f.kids) && Prompted(f.rest)
  }

  ghost predicate KidsPrompted(f: Forest) { f.Node? ==> Prompted(f.kids) && KidsPrompted(f.rest) }

  lemma {:induction false} PromptedKids(f: Forest)
    requires Prompted(f)
    ensures KidsPrompted(f)
  {
    if f.Node? {
      PromptedKids(f.rest);
    }
  }

  lemma {:induction false} KidsPromptedConcat(a: Forest, b: Forest)
    requires KidsPrompted(a) && KidsPrompted(b)
    ensures KidsPrompted(Concat(a, b))
  {
    if a.Node? {
      KidsPromptedConcat(a.rest, b);
    }
  }

  /** Flattening leaves children to nodes with a prompt only. */
  lemma {:induction false} FlatIsPrompted(f: Forest)
    requires KidsPrompted(f)
    ensures Prompted(Flat(f))
    decreases Count(f)
  {
    if f.Node? {
      if f.kids.Node? && !f.m.hasPrompt {
        ConcatNodes(f.kids, f.rest);
        PromptedKids(f.kids);
        KidsPromptedConcat(f.kids, f.rest);
        FlatIsPrompted(Concat(f.kids, f.rest));
      } else {
        FlatIsPrompted(f.rest);
      }
    }
  }

  // ---- The whole arrangement ----

  /** Whether `m`, some sibling after `p`, goes below it. */
  ghost predicate Goes(p: Menu, m: Menu, d: Snapshot)
    requires p.sym.Some?
  {
    GoesBelow(if p.hasPrompt then After(d, p).visible else None,
              if m.hasPrompt then After(d, m).visible else After(d, m).dep, p.sym.value)
  }

  /** What is below a node, what is left of the siblings after it, every decision on the way that some node goes
      below some symbol's, and what would be below the node if nothing were flattened. */
  datatype Parts = Parts(kids: Forest, rest: Forest, pairs: set<(Menu, Menu)>, nest: Forest)

  /** `p` with the nodes `k` below it and the siblings `r` after it: its children are finalised, or else the siblings
      that go below its symbol become its children. */
  ghost function Gathered(p: Menu, k: Forest, r: Forest, d: Snapshot): (o: Parts)
    ensures Count(o.rest) <= Count(r)
    decreases Count(k) + Count(r), 1
  {
    if k.Node? then Run(null, k, d).(rest := r)
    else if p.sym.Some? then Run(p, r, d)
    else Parts(Nil, r, {}, Nil)
  }

  /** And then the children of groups without a prompt move up. */
  ghost function Arranged(p: Menu, k: Forest, r: Forest, d: Snapshot): (o: Parts)
    ensures Count(o.rest) <= Count(r)
    decreases Count(k) + Count(r), 2
  {
    var o := Gathered(p, k, r, d);
    o.(kids := Flat(o.kids))
  }

  /** The siblings `r` one after another: all of them, or as long as they go below the symbol of `p`. */
  ghost function Run(p: Menu?, r: Forest, d: Snapshot): (o: Parts)
    requires p != null ==> p.sym.Some?
    ensures Count(o.rest) <= Count(r)
    decreases Count(r), 0
  {
    if r.Nil? || (p != null && !Goes(p, r.m, d)) then Parts(Nil, r, {}, Nil) else
    var a := Arranged(r.m, r.kids, r.rest, d);
    var b := Run(p, a.rest, d);
    Parts(Node(r.m, a.kids, b.kids), b.rest, (if p == null then {} else {(p as Menu, r.m)}) + a.pairs + b.pairs,
          Node(r.m, a.nest, b.nest))
  }

  /** Of the siblings `r`, `done` are arranged and `rest` are to come. */
  ghost predicate Underway(p: Menu?, done: Forest, rest: Forest, r: Forest, d: Snapshot)
    requires p != null ==> p.sym.Some?
  {
    Run(p, r, d).kids == Concat(done, Run(p, rest, d).kids) && Run(p, r, d).rest == Run(p, rest, d).rest
  }

  lemma {:induction false} UnderwayStep(p: Menu?, done: Forest, rest: Forest, r: Forest, d: Snapshot)
    requires p != null ==> p.sym.Some?
    requires Underway(p, done, rest, r, d) && rest.Node? && (p != null ==> Goes(p, rest.m, d))
    ensures var a := Arranged(rest.m, rest.kids, rest.rest, d);
            Underway(p, Concat(done, Node(rest.m, a.kids, Nil)), a.rest, r, d)
  {
    var a := Arranged(rest.m, rest.kids, rest.rest, d);
    ConcatAssociates(done, Node(rest.m, a.kids, Nil), Run(p, a.rest, d).kids);
  }

  lemma {:induction false} UnderwayEnds(p: Menu?, done: Forest, rest: Forest, r: Forest, d: Snapshot)
    requires p != null ==> p.sym.Some?
    requires Underway(p, done, rest, r, d) && (rest.Nil? || (p != null && !Goes(p, rest.m, d)))
    ensures Run(p, r, d).kids == done && Run(p, r, d).rest == rest
  {
    ConcatNil(done);
  }

  /** Everything comes from what was there. */
  lemma {:induction false} ArrangedNodes(p: Menu, k: Forest, r: Forest, d: Snapshot)
    ensures var o := Arranged(p, k, r, d);
            && Nodes(o.rest) <= Nodes(r)
            && forall x, y :: (x, y) in o.pairs ==> x in {p} + Nodes(k) + Nodes(r) && y in Nodes(k) + Nodes(r)
    decreases Count(k) + Count(r), 1
  {
    if k.Node? {
      RunNodes(null, k, d);
    } else if p.sym.Some? {
      RunNodes(p, r, d);
    }
  }

  lemma {:induction false} RunNodes(p: Menu?, r: Forest, d: Snapshot)
    requires p != null ==> p.sym.Some?
    ensures var o := Run(p, r, d);
            && Nodes(o.rest) <= Nodes(r)
            && forall x: Menu, y: Menu :: (x, y) in o.pairs ==> (x == p || x in Nodes(r)) && y in Nodes(r)
    decreases Count(r), 0
  {
    if r.Node? && (p == null || Goes(p, r.m, d)) {
      ArrangedNodes(r.m, r.kids, r.rest, d);
      RunNodes(p, Arranged(r.m, r.kids, r.rest, d).rest, d);
    }
  }

  /** A node goes below a symbol only if the decision says so. */
  lemma {:induction false} ArrangedGoes(p: Menu, k: Forest, r: Forest, d: Snapshot)
    ensures forall x, y :: (x, y) in Arranged(p, k, r, d).pairs ==> x.sym.Some? && Goes(x, y, d)
    decreases Count(k) + Count(r), 1
  {
    if k.Node? {
      RunGoes(null, k, d);
    } else if p.sym.Some? {
      RunGoes(p, r, d);
    }
  }

  lemma {:induction false} RunGoes(p: Menu?, r: Forest, d: Snapshot)
    requires p != null ==> p.sym.Some?
    ensures forall x, y :: (x, y) in Run(p, r, d).pairs ==> x.sym.Some? && Goes(x, y, d)
    ensures p != null && Run(p, r, d).rest.Node? ==> !Goes(p, Run(p, r, d).rest.m, d)
    ensures p == null ==> Run(p, r, d).rest == Nil
    ensures p != null ==> forall y :: y in Roots(Run(p, r, d).kids) ==> (p, y) in Run(p, r, d).pairs
    ensures Roots(Run(p, r, d).nest) == Roots(Run(p, r, d).kids)
    decreases Count(r), 0
  {
    if r.Node? && (p == null || Goes(p, r.m, d)) {
      ArrangedGoes(r.m, r.kids, r.rest, d);
      RunGoes(p, Arranged(r.m, r.kids, r.rest, d).rest, d);
    }
  }
}
