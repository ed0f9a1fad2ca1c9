/**
 Menu nodes linked by `list` (first child), `next` (next sibling) and `parent`, and the forest such links form.
 */
module KconfigForest {
  import opened Sequences
  import opened Options
  import opened KconfigExpr

  /** A menu node (`struct menu`). `dep` is its dependency, `visible` the condition of its prompt if it has one. */
  class Menu {
    var next: Menu?
    var parent: Menu?
    var list: Menu?
    var dep: Option<Expr>
    var visible: Option<Expr>
    const sym: Option<Symbol>
    const hasPrompt: bool

    constructor (sym: Option<Symbol>, hasPrompt: bool, dep: Option<Expr>, visible: Option<Expr>)
      ensures this.sym == sym && this.hasPrompt == hasPrompt && this.dep == dep && this.visible == visible
      ensures next == null && parent == null && list == null
    {
      this.sym, this.hasPrompt, this.dep, this.visible := sym, hasPrompt, dep, visible;
      next, parent, list := null, null, null;
    }
  }

  /** A list of siblings with all that is below them. */
  datatype Forest = Nil | Node(m: Menu, kids: Forest, rest: Forest)

  ghost function Nodes(f: Forest): set<Menu> {
    match f
    case Nil => {}
    case Node(m, k, r) => {m} + Nodes(k) + Nodes(r)
  }

  /** The siblings themselves. */
  ghost function Roots(f: Forest): set<Menu> { if f.Nil? then {} else {f.m} + Roots(f.rest) }

  ghost function Preorder(f: Forest): seq<Menu> {
    match f
    case Nil => []
    case Node(m, k, r) => [m] + Preorder(k) + Preorder(r)
  }

  ghost function Count(f: Forest): nat {
    match f
    case Nil => 0
    case Node(_, k, r) => 1 + Count(k) + Count(r)
  }

  /** No node occurs twice. */
  ghost predicate Distinct(f: Forest) {
    match f
    case Nil => true
    case Node(m, k, r) => m !in Nodes(k) && m !in Nodes(r) && Nodes(k) !! Nodes(r) && Distinct(k) && Distinct(r)
  }

  /** The nodes linked from `head` up to but not including `tail` are the siblings of `f`, their parent fields say
      `up`, and below each of them the links are just as the forest says. */
  ghost predicate Linked(f: Forest, head: Menu?, up: Menu?, tail: Menu?)
    reads Nodes(f)`next, Nodes(f)`parent, Nodes(f)`list
  {
    match f
    case Nil => head == tail
    case Node(m, k, r) => head == m && m.parent == up && Linked(k, m.list, m, null) && Linked(r, m.next, up, tail)
  }

  ghost function Concat(a: Forest, b: Forest): Forest {
    match a
    case Nil => b
    case Node(m, k, r) => Node(m, k, Concat(r, b))
  }

  lemma {:induction false} ConcatNodes(a: Forest, b: Forest)
    ensures Nodes(Concat(a, b)) == Nodes(a) + Nodes(b)
    ensures Count(Concat(a, b)) == Count(a) + Count(b)
  {
    if a.Node? {
      ConcatNodes(a.rest, b);
    }
  }

  lemma {:induction false} ConcatPreorder(a: Forest, b: Forest)
    ensures Preorder(Concat(a, b)) == Preorder(a) + Preorder(b)
  {
    if a.Node? {
      ConcatPreorder(a.rest, b);
    }
  }

  lemma {:induction false} ConcatDistinct(a: Forest, b: Forest)
    ensures Distinct(Concat(a, b)) <==> Distinct(a) && Distinct(b) && Nodes(a) !! Nodes(b)
  {
    if a.Node? {
      ConcatDistinct(a.rest, b);
      ConcatNodes(a.rest, b);
    }
  }

  lemma {:induction false} ConcatAssociates(a: Forest, b: Forest, c: Forest)
    ensures Concat(Concat(a, b), c) == Concat(a, Concat(b, c))
  {
    if a.Node? {
      ConcatAssociates(a.rest, b, c);
    }
  }

  lemma {:induction false} ConcatNil(a: Forest)
    ensures Concat(a, Nil) == a
  {
    if a.Node? {
      ConcatNil(a.rest);
    }
  }

  lemma {:induction false} ConcatLinked(a: Forest, b: Forest, head: Menu?, up: Menu?, mid: Menu?, tail: Menu?)
    requires Linked(a, head, up, mid) && Linked(b, mid, up, tail)
    ensures Linked(Concat(a, b), head, up, tail)
  {
    if a.Node? {
      ConcatLinked(a.rest, b, a.m.next, up, mid, tail);
    }
  }

  ghost function Elems(s: seq<Menu>): set<Menu> { set m | m in s }

  /** A node is in a forest exactly when the preorder visits it. */
  lemma {:induction false} PreorderVisitsNodes(f: Forest)
    ensures Elems(Preorder(f)) == Nodes(f) && |Preorder(f)| == Count(f)
  {
    if f.Node? {
      PreorderVisitsNodes(f.kids);
      PreorderVisitsNodes(f.rest);
    }
  }

  lemma {:induction false} NoRepeatsJoined(a: seq<Menu>, b: seq<Menu>)
    requires NoRepeats(a) && NoRepeats(b) && Elems(a) !! Elems(b)
    ensures NoRepeats(a + b)
  {
    forall i, j | 0 <= i < j < |a + b|
      ensures (a + b)[i] != (a + b)[j]
    {
      if i < |a| && j >= |a| {
        assert (a + b)[i] in Elems(a) && (a + b)[j] in Elems(b);
      }
    }
  }

  lemma {:induction false} NoRepeatsNode(m: Menu, a: seq<Menu>, b: seq<Menu>)
    requires NoRepeats(a) && NoRepeats(b) && m !in a && m !in b && Elems(a) !! Elems(b)
    ensures NoRepeats([m] + a + b)
  {
    NoRepeatsJoined([m], a);
    assert Elems([m]) == {m} && Elems([m] + a) == {m} + Elems(a);
    NoRepeatsJoined([m] + a, b);
  }

  /** Each node of a forest without repetition is visited once. */
  lemma {:induction false} PreorderNoRepeats(f: Forest)
    requires Distinct(f)
    ensures NoRepeats(Preorder(f))
  {
    if f.Node? {
      PreorderNoRepeats(f.kids);
      PreorderNoRepeats(f.rest);
      PreorderVisitsNodes(f.kids);
      PreorderVisitsNodes(f.rest);
      assert f.m !in Elems(Preorder(f.kids)) && f.m !in Elems(Preorder(f.rest));
      NoRepeatsNode(f.m, Preorder(f.kids), Preorder(f.rest));
    }
  }

  // ---- The stackless walk ----

  /** What remains after the current list of siblings: the siblings after each ancestor. */
  datatype Context = Top | In(m: Menu, rest: Forest, outer: Context)

  ghost function ContextNodes(c: Context): set<Menu> {
    match c
    case Top => {}
    case In(m, r, o) => {m} + Nodes(r) + ContextNodes(o)
  }

  ghost function Remaining(c: Context): seq<Menu> {
    match c
    case Top => []
    case In(_, r, o) => Preorder(r) + Remaining(o)
  }

  /** `up` leads through the ancestors to the top. */
  ghost predicate Pending(c: Context, up: Menu?)
    reads ContextNodes(c)`next, ContextNodes(c)`parent, ContextNodes(c)`list
  {
    match c
    case Top => up == null
    case In(m, r, o) => up == m && Linked(r, m.next, m.parent, null) && Pending(o, m.parent)
  }

  ghost function ContextCount(c: Context): nat {
    match c
    case Top => 0
    case In(_, r, o) => 1 + 2 * Count(r) + ContextCount(o)
  }

  /** The climb of the walk: to the next sibling of the nearest ancestor that has one; null at the top. */
  method Climb(menu: Menu, ghost c: Context, ghost up: Menu?) returns (r: Menu?, ghost f: Forest, ghost c': Context)
    requires menu.parent == up && Pending(c, up)
    ensures r == null ==> Remaining(c) == []
    ensures r != null ==> f.Node? && Linked(f, r, r.parent, null) && Pending(c', r.parent)
    ensures r != null ==>
              Remaining(c) == Preorder(f) + Remaining(c') && 2 * Count(f) + ContextCount(c') < ContextCount(c)
  {
    var at: Menu := menu;
    ghost var d := c;
    f, c' := Nil, c;
    while true
      invariant Pending(d, at.parent) && Remaining(d) == Remaining(c) && ContextCount(d) <= ContextCount(c)
      decreases d
    {
      if at.parent == null {
        return null, Nil, c;
      }
      at := at.parent;
      if at.next != null {
        return at.next, d.rest, d.outer;
      }
      d := d.outer;
    }
  }

  /** What the walk has still to visit. */
  ghost function ToVisit(menu: Menu?, f: Forest, c: Context): seq<Menu> {
    if menu == null then [] else Preorder(f) + Remaining(c)
  }

  ghost function Effort(menu: Menu?, f: Forest, c: Context): nat {
    if menu == null then 0 else 1 + 2 * Count(f) + ContextCount(c)
  }

  /** The cursor stands at the first of the siblings `f`, inside the context `c`. */
  ghost predicate Cursor(menu: Menu?, f: Forest, c: Context)
    reads if menu == null then {} else {menu} + Nodes(f) + ContextNodes(c)
  {
    menu != null ==> Linked(f, menu, menu.parent, null) && Pending(c, menu.parent)
  }

  lemma {:induction false} Regroup(a: seq<Menu>, b: seq<Menu>, c: seq<Menu>, d: seq<Menu>)
    ensures a + b + c + d == a + (b + (c + d))
    ensures b == [] ==> a + b + c + d == a + (c + d)
    ensures b == c == [] ==> a + b + c + d == a + d
  {
  }

  /** One move of the walk. */
  method Advance(menu: Menu, ghost f: Forest, ghost c: Context)
    returns (menu': Menu?, ghost f': Forest, ghost c': Context)
    requires Cursor(menu, f, c)
    ensures Cursor(menu', f', c')
    ensures ToVisit(menu, f, c) == [menu] + ToVisit(menu', f', c')
    ensures Effort(menu', f', c') < Effort(menu, f, c)
  {
    assert f.Node? && f.m == menu;
    assert Linked(f.kids, menu.list, menu, null) && Linked(f.rest, menu.next, menu.parent, null);
    VisitCases(menu, f, c);
    hide Preorder, Remaining;
    if menu.list != null {
      return menu.list, f.kids, In(menu, f.rest, c);
    }
    if menu.next != null {
      return menu.next, f.rest, c;
    }
    menu', f', c' := Climb(menu, c, menu.parent);
  }

  /** What is to visit from a node: the node, what is below it, and what comes after. */
  lemma {:induction false} VisitCases(menu: Menu, f: Forest, c: Context)
    requires f.Node? && f.m == menu
    ensures Preorder(f) + Remaining(c) == [menu] + (Preorder(f.kids) + Remaining(In(menu, f.rest, c)))
    ensures f.kids.Nil? ==> Preorder(f) + Remaining(c) == [menu] + (Preorder(f.rest) + Remaining(c))
    ensures f.kids.Nil? && f.rest.Nil? ==> Preorder(f) + Remaining(c) == [menu] + Remaining(c)
  {
    Regroup([menu], Preorder(f.kids), Preorder(f.rest), Remaining(c));
  }

  /** The loop of `conf_write`: it visits the nodes below `root` in preorder, each once, and ends. */
  method Walk(root: Menu, ghost f: Forest) returns (visited: seq<Menu>)
    requires Distinct(f) && root.parent == null && root.next == null && Linked(f, root.list, root, null)
    ensures visited == Preorder(f) && NoRepeats(visited)
    ensures Elems(visited) == Nodes(f)
  {
    hide *;
    visited := [];
    var menu := root.list;
    ghost var g, c := f, In(root, Nil, Top);
    WalkStarts(root, f);
    while menu != null
      invariant Cursor(menu, g, c)
      invariant visited + ToVisit(menu, g, c) == Preorder(f)
      decreases Effort(menu, g, c)
    {
      ghost var before, at := visited, menu;
      visited := visited + [menu];
      menu, g, c := Advance(menu, g, c);
      assert before + ([at] + ToVisit(menu, g, c)) == visited + ToVisit(menu, g, c);
    }
    NothingLeft(g, c);
    assert visited + [] == visited;
    PreorderNoRepeats(f);
    PreorderVisitsNodes(f);
  }

  lemma {:induction false} NothingLeft(f: Forest, c: Context)
    ensures ToVisit(null, f, c) == []
  {
  }

  lemma {:induction false} WalkStarts(root: Menu, f: Forest)
    requires Distinct(f) && root.parent == null && root.next == null && Linked(f, root.list, root, null)
    ensures Cursor(root.list, f, In(root, Nil, Top)) && ToVisit(root.list, f, In(root, Nil, Top)) == Preorder(f)
  {
    assert Remaining(In(root, Nil, Top)) == [] && Preorder(f) + [] == Preorder(f);
    assert Pending(Top, null) && Linked(Nil, root.next, root.parent, null);
  }
}
