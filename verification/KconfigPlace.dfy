/**
 Where `menu_finalize` puts the nodes: which node becomes the parent of which.
 */
module KconfigPlace {
  import opened Options
  import opened KconfigExpr
  import opened KconfigForest
  import opened KconfigDeps
  import opened KconfigArrange

  // ---- Parents in a forest ----

  /** The parent of `x` among the siblings `f` of parent `up` and what is below them. */
  ghost function ParentIn(f: Forest, up: Menu, x: Menu): Menu {
    match f
    case Nil => up
    case Node(m, k, r) =>
      if x == m then up else if x in Nodes(k) then ParentIn(k, m, x) else ParentIn(r, up, x)
  }

  /** The nearest node with a prompt that encloses `x`; `up` if none of `f` does. */
  ghost function Nearest(f: Forest, up: Menu, x: Menu): Menu {
    match f
    case Nil => up
    case Node(m, k, r) =>
      if x == m then up
      else if x in Nodes(k) then Nearest(k, if m.hasPrompt then m else up, x)
      else Nearest(r, up, x)
  }

  /** The parent fields of linked nodes say what the forest says. */
  lemma {:induction false} LinkedParent(f: Forest, head: Menu?, up: Menu, tail: Menu?, x: Menu)
    requires Linked(f, head, up, tail) && x in Nodes(f)
    ensures x.parent == ParentIn(f, up, x)
  {
    if x != f.m {
      if x in Nodes(f.kids) {
        LinkedParent(f.kids, f.m.list, f.m, null, x);
      } else {
        LinkedParent(f.rest, f.m.next, up, tail, x);
      }
    }
  }

  // ---- Flattening ----

  lemma {:induction false} NearestConcat(a: Forest, b: Forest, up: Menu, x: Menu)
    ensures Nearest(Concat(a, b), up, x) == if x in Nodes(a) then Nearest(a, up, x) else Nearest(b, up, x)
  {
    if a.Node? {
      NearestConcat(a.rest, b, up, x);
      ConcatNodes(a.rest, b);
    }
  }

  lemma {:induction false} FlatNodes(f: Forest)
    ensures Nodes(Flat(f)) == Nodes(f)
    decreases Count(f)
  {
    if f.Node? {
      ConcatNodes(f.kids, f.rest);
      if f.kids.Node? && !f.m.hasPrompt {
        FlatNodes(Concat(f.kids, f.rest));
      } else {
        FlatNodes(f.rest);
      }
    }
  }

  /** Flattening takes no node out of a node with a prompt and puts none in. */
  lemma {:induction false} FlatNearest(f: Forest, up: Menu, x: Menu)
    ensures Nearest(Flat(f), up, x) == Nearest(f, up, x)
    decreases Count(f)
  {
    if f.Node? {
      ConcatNodes(f.kids, f.rest);
      if f.kids.Node? && !f.m.hasPrompt {
        FlatNearest(Concat(f.kids, f.rest), up, x);
        NearestConcat(f.kids, f.rest, up, x);
      } else {
        FlatNearest(f.rest, up, x);
      }
    }
  }

  lemma {:induction false} PromptedParent(f: Forest, up: Menu, x: Menu)
    requires Prompted(f) && x in Nodes(f)
    ensures ParentIn(f, up, x) == Nearest(f, up, x)
  {
    if x != f.m {
      if x in Nodes(f.kids) {
        PromptedParent(f.kids, f.m, x);
      } else {
        PromptedParent(f.rest, up, x);
      }
    }
  }

  /** After flattening the parent of every node is the nearest node that enclosed it and has a prompt, or the node whose
      list was flattened; so a node with a prompt keeps its children. */
  lemma {:induction false} FlatParent(f: Forest, up: Menu, x: Menu)
    requires KidsPrompted(f) && x in Nodes(f)
    ensures ParentIn(Flat(f), up, x) == Nearest(f, up, x)
  {
    FlatIsPrompted(f);
    FlatNodes(f);
    PromptedParent(Flat(f), up, x);
    FlatNearest(f, up, x);
  }

  // ---- All levels ----

  /** Flattening at every level changes no nearest node with a prompt. */
  lemma {:induction false} ArrangedNearest(p: Menu, k: Forest, r: Forest, d: Snapshot, up: Menu, x: Menu)
    ensures var o := Arranged(p, k, r, d);
            Nodes(o.kids) == Nodes(o.nest) && Nearest(o.kids, up, x) == Nearest(o.nest, up, x)
    decreases Count(k) + Count(r), 1
  {
    var o := Gathered(p, k, r, d);
    if k.Node? {
      RunNearest(null, k, d, up, x);
    } else if p.sym.Some? {
      RunNearest(p, r, d, up, x);
    }
    FlatNodes(o.kids);
    FlatNearest(o.kids, up, x);
  }

  lemma {:induction false} RunNearest(p: Menu?, r: Forest, d: Snapshot, up: Menu, x: Menu)
    requires p != null ==> p.sym.Some?
    ensures var o := Run(p, r, d); Nodes(o.kids) == Nodes(o.nest) && Nearest(o.kids, up, x) == Nearest(o.nest, up, x)
    decreases Count(r), 0
  {
    if r.Node? && (p == null || Goes(p, r.m, d)) {
      var a := Arranged(r.m, r.kids, r.rest, d);
      ArrangedNearest(r.m, r.kids, r.rest, d, if r.m.hasPrompt then r.m else up, x);
      RunNearest(p, a.rest, d, up, x);
    }
  }

  lemma {:induction false} ArrangedPrompted(p: Menu, k: Forest, r: Forest, d: Snapshot)
    ensures Prompted(Arranged(p, k, r, d).kids)
    decreases Count(k) + Count(r), 1
  {
    if k.Node? {
      RunPrompted(null, k, d);
    } else if p.sym.Some? {
      RunPrompted(p, r, d);
    }
    FlatIsPrompted(Gathered(p, k, r, d).kids);
  }

  lemma {:induction false} RunPrompted(p: Menu?, r: Forest, d: Snapshot)
    requires p != null ==> p.sym.Some?
    ensures KidsPrompted(Run(p, r, d).kids)
    decreases Count(r), 0
  {
    if r.Node? && (p == null || Goes(p, r.m, d)) {
      ArrangedPrompted(r.m, r.kids, r.rest, d);
      RunPrompted(p, Arranged(r.m, r.kids, r.rest, d).rest, d);
    }
  }

  /** In the arrangement the parent of every node is the nearest node with a prompt that encloses it once the submenus
      are made. */
  lemma {:induction false} ArrangedParent(p: Menu, k: Forest, r: Forest, d: Snapshot, up: Menu, x: Menu)
    requires x in Nodes(Arranged(p, k, r, d).kids)
    ensures var o := Arranged(p, k, r, d); ParentIn(o.kids, up, x) == Nearest(o.nest, up, x)
  {
    ArrangedPrompted(p, k, r, d);
    ArrangedNearest(p, k, r, d, up, x);
    PromptedParent(Arranged(p, k, r, d).kids, up, x);
  }

  // ---- The submenus ----

  /** The next sibling of `x`, or null. */
  ghost function NextIn(f: Forest, x: Menu): Menu? {
    match f
    case Nil => null
    case Node(m, k, r) =>
      if x == m then if r.Node? then r.m else null
      else if x in Nodes(k) then NextIn(k, x) else NextIn(r, x)
  }

  ghost function KidsOf(f: Forest, x: Menu): Forest {
    match f
    case Nil => Nil
    case Node(m, k, r) => if x == m then k else if x in Nodes(k) then KidsOf(k, x) else KidsOf(r, x)
  }

  /** Making submenus keeps the order of the nodes. */
  lemma {:induction false} NestOrder(p: Menu, k: Forest, r: Forest, d: Snapshot)
    ensures var o := Arranged(p, k, r, d);
            && Preorder(o.nest) + Preorder(o.rest) == Preorder(k) + Preorder(r)
            && Nodes(o.nest) + Nodes(o.rest) == Nodes(k) + Nodes(r)
    decreases Count(k) + Count(r), 1
  {
    if k.Node? {
      RunOrder(null, k, d);
      RunGoes(null, k, d);
      assert Preorder(Run(null, k, d).nest) + [] == Preorder(Run(null, k, d).nest);
    } else if p.sym.Some? {
      RunOrder(p, r, d);
      assert [] + Preorder(r) == Preorder(r);
    }
  }

  lemma {:induction false} RunOrder(p: Menu?, r: Forest, d: Snapshot)
    requires p != null ==> p.sym.Some?
    ensures var o := Run(p, r, d);
            Preorder(o.nest) + Preorder(o.rest) == Preorder(r) && Nodes(o.nest) + Nodes(o.rest) == Nodes(r)
    decreases Count(r), 0
  {
    if r.Node? && (p == null || Goes(p, r.m, d)) {
      var a := Arranged(r.m, r.kids, r.rest, d);
      var b := Run(p, a.rest, d);
      NestOrder(r.m, r.kids, r.rest, d);
      RunOrder(p, a.rest, d);
      assert Run(p, r, d).nest == Node(r.m, a.nest, b.nest) && Run(p, r, d).rest == b.rest;
      NodeOrder(r, a.nest, a.rest, b.nest, b.rest);
    } else {
      assert [] + Preorder(r) == Preorder(r);
    }
  }

  lemma {:induction false} NodeOrder(r: Forest, kids: Forest, mid: Forest, after: Forest, rest: Forest)
    requires r.Node?
    requires Preorder(kids) + Preorder(mid) == Preorder(r.kids) + Preorder(r.rest)
    requires Preorder(after) + Preorder(rest) == Preorder(mid)
    requires Nodes(kids) + Nodes(mid) == Nodes(r.kids) + Nodes(r.rest) && Nodes(after) + Nodes(rest) == Nodes(mid)
    ensures var n := Node(r.m, kids, after);
            Preorder(n) + Preorder(rest) == Preorder(r) && Nodes(n) + Nodes(rest) == Nodes(r)
  {
    var n := Node(r.m, kids, after);
    assert Nodes(n) == {r.m} + Nodes(kids) + Nodes(after) && Nodes(r) == {r.m} + Nodes(r.kids) + Nodes(r.rest);
    assert Preorder(n) == [r.m] + Preorder(kids) + Preorder(after);
    assert Preorder(r) == [r.m] + Preorder(r.kids) + Preorder(r.rest);
    hide Preorder, Nodes;
    Regrouped([r.m], Preorder(kids), Preorder(after), Preorder(rest), Preorder(r.kids), Preorder(r.rest));
  }

  lemma {:induction false} Regrouped(m: seq<Menu>, a: seq<Menu>, b: seq<Menu>, c: seq<Menu>, x: seq<Menu>, y: seq<Menu>)
    requires a + (b + c) == x + y
    ensures m + a + b + c == m + x + y
  {
    assert m + a + b + c == m + (a + (b + c));
    assert m + x + y == m + (x + y);
  }

  lemma {:induction false} RestIsSuffix(p: Menu, k: Forest, r: Forest, d: Snapshot) returns (t: Forest)
    ensures r == Concat(t, Arranged(p, k, r, d).rest)
    decreases Count(k) + Count(r), 1
  {
    t := Nil;
    if k.Nil? && p.sym.Some? {
      t := RunSuffix(p, r, d);
    }
  }

  lemma {:induction false} RunSuffix(p: Menu?, r: Forest, d: Snapshot) returns (t: Forest)
    requires p != null ==> p.sym.Some?
    ensures r == Concat(t, Run(p, r, d).rest)
    decreases Count(r), 0
  {
    t := Nil;
    if r.Node? && (p == null || Goes(p, r.m, d)) {
      var a := Arranged(r.m, r.kids, r.rest, d);
      var t1 := RestIsSuffix(r.m, r.kids, r.rest, d);
      var t2 := RunSuffix(p, a.rest, d);
      ConcatAssociates(t1, t2, Run(p, a.rest, d).rest);
      t := Node(r.m, r.kids, Concat(t1, t2));
    }
  }

  /** The end of a list of siblings has the same parents and children as the whole. */
  lemma {:induction false} SuffixPlace(t: Forest, r: Forest, w: Menu, x: Menu)
    requires Distinct(Concat(t, r)) && x in Nodes(r)
    ensures ParentIn(Concat(t, r), w, x) == ParentIn(r, w, x) && KidsOf(Concat(t, r), x) == KidsOf(r, x)
    ensures Distinct(r)
  {
    if t.Node? {
      ConcatNodes(t.rest, r);
      SuffixPlace(t.rest, r, w, x);
    }
  }

  /** `x` is where it was, or went below a symbol that had nothing below it; and what follows it now, if it is such a
      symbol itself, does not go below it. */
  ghost predicate Placed(nest: Forest, read: Forest, w: Menu, u: Menu, x: Menu, pairs: set<(Menu, Menu)>, d: Snapshot) {
    && (ParentIn(nest, w, x) == ParentIn(read, u, x) || (ParentIn(nest, w, x), x) in pairs)
    && (KidsOf(read, x) == Nil && x.sym.Some? && NextIn(nest, x) != null ==> !Goes(x, NextIn(nest, x), d))
  }

  lemma {:induction false} ArrangedPlace(p: Menu, k: Forest, r: Forest, d: Snapshot, u: Menu, x: Menu)
    requires Distinct(Node(p, k, r)) && x in Nodes(Arranged(p, k, r, d).nest)
    ensures var o := Arranged(p, k, r, d); Placed(o.nest, Node(p, k, r), p, u, x, o.pairs, d)
    decreases Count(k) + Count(r), 1
  {
    if k.Node? {
      RunPlace(null, k, d, p, x);
      RunOrder(null, k, d);
    } else if p.sym.Some? {
      RunPlace(p, r, d, p, x);
      RunOrder(p, r, d);
      RunGoes(p, r, d);
      if x in Roots(r) {
        RootParent(r, p, x);
        if ParentIn(Run(p, r, d).nest, p, x) == p {
          ParentIsUp(Run(p, r, d).nest, p, x);
        }
      } else {
        NotRoot(r, p, u, x);
      }
    }
  }

  lemma {:induction false} RunPlace(p: Menu?, r: Forest, d: Snapshot, w: Menu, x: Menu)
    requires p != null ==> p.sym.Some? && p == w
    requires Distinct(r) && x in Nodes(Run(p, r, d).nest)
    ensures var o := Run(p, r, d); Placed(o.nest, r, w, w, x, o.pairs, d)
    decreases Count(r), 0
  {
    if r.Node? && (p == null || Goes(p, r.m, d)) {
      var a := Arranged(r.m, r.kids, r.rest, d);
      var b := Run(p, a.rest, d);
      NestOrder(r.m, r.kids, r.rest, d);
      RunOrder(p, a.rest, d);
      if x == r.m {
        if r.kids.Nil? && r.m.sym.Some? {
          RunGoes(r.m, r.rest, d);
        }
      } else if x in Nodes(a.nest) {
        ArrangedPlace(r.m, r.kids, r.rest, d, w, x);
      } else {
        var t := RestIsSuffix(r.m, r.kids, r.rest, d);
        SuffixPlace(Node(r.m, r.kids, t), a.rest, w, x);
        RunPlace(p, a.rest, d, w, x);
      }
    }
  }

  lemma {:induction false} RootParent(f: Forest, w: Menu, x: Menu)
    requires Distinct(f) && x in Roots(f)
    ensures ParentIn(f, w, x) == w
  {
    if x != f.m {
      RootIsNode(f.rest, x);
      RootParent(f.rest, w, x);
    }
  }

  lemma {:induction false} RootIsNode(f: Forest, x: Menu)
    requires x in Roots(f)
    ensures x in Nodes(f)
  {
    if x != f.m {
      RootIsNode(f.rest, x);
    }
  }

  lemma {:induction false} ParentIsUp(f: Forest, w: Menu, x: Menu)
    requires x in Nodes(f) && w !in Nodes(f) && ParentIn(f, w, x) == w
    ensures x in Roots(f)
  {
    if x != f.m {
      if x in Nodes(f.kids) {
        ParentInside(f.kids, f.m, x);
      } else {
        ParentIsUp(f.rest, w, x);
      }
    }
  }

  lemma {:induction false} ParentInside(f: Forest, w: Menu, x: Menu)
    requires x in Nodes(f)
    ensures ParentIn(f, w, x) == w || ParentIn(f, w, x) in Nodes(f)
  {
    if x != f.m {
      if x in Nodes(f.kids) {
        ParentInside(f.kids, f.m, x);
      } else {
        ParentInside(f.rest, w, x);
      }
    }
  }

  /** Below the root siblings it does not matter who their parent is. */
  lemma {:induction false} NotRoot(f: Forest, w: Menu, u: Menu, x: Menu)
    requires x in Nodes(f) && x !in Roots(f)
    ensures ParentIn(f, w, x) == ParentIn(f, u, x)
  {
    if x !in Nodes(f.kids) {
      NotRoot(f.rest, w, u, x);
    }
  }

  /** Only below a symbol that had nothing below it do nodes go. */
  lemma {:induction false} ArrangedPairs(p: Menu, k: Forest, r: Forest, d: Snapshot, x: Menu, y: Menu)
    requires Distinct(Node(p, k, r)) && (x, y) in Arranged(p, k, r, d).pairs
    ensures KidsOf(Node(p, k, r), x) == Nil
    decreases Count(k) + Count(r), 1
  {
    if k.Node? {
      RunPairs(null, k, d, x, y);
      RunNodes(null, k, d);
    } else if p.sym.Some? {
      if x != p {
        RunPairs(p, r, d, x, y);
        RunNodes(p, r, d);
      }
    }
  }

  lemma {:induction false} RunPairs(p: Menu?, r: Forest, d: Snapshot, x: Menu, y: Menu)
    requires p != null ==> p.sym.Some?
    requires Distinct(r) && (x, y) in Run(p, r, d).pairs && x != p
    ensures KidsOf(r, x) == Nil
    decreases Count(r), 0
  {
    if r.Node? && (p == null || Goes(p, r.m, d)) {
      var a := Arranged(r.m, r.kids, r.rest, d);
      if (x, y) in a.pairs {
        ArrangedPairs(r.m, r.kids, r.rest, d, x, y);
      } else {
        var t := RestIsSuffix(r.m, r.kids, r.rest, d);
        RunNodes(p, a.rest, d);
        SuffixPlace(Node(r.m, r.kids, t), a.rest, x, x);
        RunPairs(p, a.rest, d, x, y);
      }
    }
  }

  /** The tree under the root once the submenus are made and nothing is flattened. */
  ghost function Nest(root: Menu, k: Forest, d: Snapshot): Forest { Arranged(root, k, Nil, d).nest }

  /** It has the nodes as read in their order. Each is below the node it was read below, or below a symbol that was read
      with nothing below it and for which it passes the test; and what now follows such a symbol does not pass it. */
  lemma {:induction false} NestIs(root: Menu, k: Forest, d: Snapshot)
    requires Distinct(Node(root, k, Nil))
    ensures Preorder(Nest(root, k, d)) == Preorder(k) && Nodes(Nest(root, k, d)) == Nodes(k)
    ensures forall x :: x in Nodes(k) ==> InPlace(root, k, d, x)
  {
    var o := Arranged(root, k, Nil, d);
    NestOrder(root, k, Nil, d);
    assert Preorder(o.nest) + [] == Preorder(o.nest) && Preorder(k) + [] == Preorder(k);
    forall x | x in Nodes(k)
      ensures InPlace(root, k, d, x)
    {
      ArrangedInPlace(root, k, d, x);
    }
  }

  ghost predicate InPlace(root: Menu, k: Forest, d: Snapshot, x: Menu) {
    var q, next := ParentIn(Nest(root, k, d), root, x), NextIn(Nest(root, k, d), x);
    && (q != ParentIn(k, root, x) ==> KidsOf(Node(root, k, Nil), q) == Nil && q.sym.Some? && Goes(q, x, d))
    && (KidsOf(k, x) == Nil && x.sym.Some? && next != null ==> !Goes(x, next, d))
  }

  lemma {:induction false} ArrangedInPlace(root: Menu, k: Forest, d: Snapshot, x: Menu)
    requires Distinct(Node(root, k, Nil)) && x in Nodes(k) && x in Nodes(Nest(root, k, d))
    ensures InPlace(root, k, d, x)
  {
    var o := Arranged(root, k, Nil, d);
    var q := ParentIn(o.nest, root, x);
    ArrangedPlace(root, k, Nil, d, root, x);
    assert ParentIn(Node(root, k, Nil), root, x) == ParentIn(k, root, x);
    assert KidsOf(Node(root, k, Nil), x) == KidsOf(k, x);
    if q != ParentIn(k, root, x) {
      assert (q, x) in o.pairs;
      ArrangedGoes(root, k, Nil, d);
      ArrangedPairs(root, k, Nil, d, q, x);
    }
  }

  /** The parent fields of the finished tree. */
  lemma {:induction false} FinalParents(root: Menu, k: Forest, d: Snapshot)
    requires Linked(Arranged(root, k, Nil, d).kids, root.list, root, null)
    ensures forall x :: x in Nodes(k) ==> x.parent == Nearest(Nest(root, k, d), root, x)
  {
    var o := Arranged(root, k, Nil, d);
    NestOrder(root, k, Nil, d);
    forall x | x in Nodes(k)
      ensures x.parent == Nearest(o.nest, root, x)
    {
      ArrangedNearest(root, k, Nil, d, root, x);
      ArrangedParent(root, k, Nil, d, root, x);
      LinkedParent(o.kids, root.list, root, null, x);
    }
  }
}
