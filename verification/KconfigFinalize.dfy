/**
 `menu_finalize` on linked menu nodes: dependencies are passed down, items that depend on a symbol become its
 submenu, and groups without a prompt are flattened. The preorder of the nodes and the parent fields survive.
 */
module KconfigFinalize {
  import opened Sequences
  import opened Options
  import opened KconfigExpr
  import opened KconfigTransform
  import opened KconfigSubmenu
  import opened KconfigForest
  import opened KconfigDeps
  import opened KconfigArrange
  import opened KconfigPlace

  /** Siblings linked from `head` to `tail`, none twice. */
  ghost predicate Siblings(f: Forest, head: Menu?, up: Menu?, tail: Menu?)
    reads Nodes(f)`next, Nodes(f)`parent, Nodes(f)`list
  {
    Distinct(f) && Linked(f, head, up, tail)
  }

  ghost predicate Rearranged(f: Forest, g: Forest) {
    Preorder(f) == Preorder(g) && Nodes(f) == Nodes(g) && Count(f) == Count(g)
  }

  /** Same nodes in the same preorder. */
  ghost predicate SameOrder(a: Forest, b: Forest, c: Forest, d: Forest) {
    && Preorder(a) + Preorder(b) == Preorder(c) + Preorder(d)
    && Nodes(a) + Nodes(b) == Nodes(c) + Nodes(d)
    && Count(a) + Count(b) == Count(c) + Count(d)
  }

  /** Adding a node at the end of a list of siblings. */
  lemma {:induction false} Extends(done: Forest, head: Menu?, up: Menu?, m: Menu, k: Forest)
    requires Siblings(done, head, up, m) && m.parent == up && Siblings(k, m.list, m, null)
    requires m !in Nodes(k) && m !in Nodes(done) && Nodes(done) !! Nodes(k)
    ensures var f := Concat(done, Node(m, k, Nil));
            && Siblings(f, head, up, m.next)
            && Nodes(f) == Nodes(done) + {m} + Nodes(k)
            && Preorder(f) == Preorder(done) + ([m] + Preorder(k))
            && Count(f) == Count(done) + 1 + Count(k)
  {
    var one := Node(m, k, Nil);
    assert Nodes(one) == {m} + Nodes(k) && Preorder(one) == [m] + Preorder(k);
    assert Linked(Nil, m.next, up, m.next);
    ConcatNodes(done, one);
    ConcatPreorder(done, one);
    ConcatDistinct(done, one);
    ConcatLinked(done, one, head, up, m, m.next);
  }

  lemma {:induction false} OrderKept(k': Forest, k1: Forest, r': Forest, k: Forest, r: Forest)
    requires Rearranged(k', k1)
    ensures SameOrder(k1, r', k, r) ==> SameOrder(k', r', k, r)
    ensures Rearranged(k1, k) ==> SameOrder(k', r, k, r)
  {
    hide Preorder, Nodes, Count;
  }

  lemma {:induction false} AllDone(done: Forest, rest: Forest, k: Forest)
    requires rest.Nil? && SameOrder(done, rest, Nil, k)
    ensures Rearranged(done, k)
  {
    assert Preorder(done) + [] == Preorder(done) && [] + Preorder(k) == Preorder(k);
  }

  /** One more sibling is finalised: `kids` end up below `m`, `after` is still to do. */
  lemma {:induction false} OrderExtends(done: Forest, done': Forest, m: Menu, kids: Forest, after: Forest,
          rest: Forest, k: Forest)
    requires rest.Node? && rest.m == m && SameOrder(done, rest, Nil, k) && SameOrder(kids, after, rest.kids, rest.rest)
    requires Preorder(done') == Preorder(done) + ([m] + Preorder(kids))
    requires Nodes(done') == Nodes(done) + {m} + Nodes(kids) && Count(done') == Count(done) + 1 + Count(kids)
    ensures SameOrder(done', after, Nil, k)
  {
    var x, y := Preorder(rest.kids), Preorder(rest.rest);
    assert Preorder(rest) == [m] + x + y && Nodes(rest) == {m} + Nodes(rest.kids) + Nodes(rest.rest);
    assert Count(rest) == 1 + Count(rest.kids) + Count(rest.rest);
    hide Preorder, Nodes, Count;
    RegroupStep(Preorder(done), [m], Preorder(kids), Preorder(after), x, y);
  }

  lemma {:induction false} RegroupStep(a: seq<Menu>, m: seq<Menu>, b: seq<Menu>, c: seq<Menu>, x: seq<Menu>,
          y: seq<Menu>)
    requires b + c == x + y
    ensures a + (m + b) + c == a + (m + x + y)
  {
    assert a + (m + b) + c == a + (m + (b + c));
    assert m + x + y == m + (x + y);
  }

  // ---- Dependencies ----

  /** The dependency and the prompt's condition of one child. */
  method PropagateTo(menu: Menu, up: Menu, parentDep: Option<Expr>, modules: Symbol, ghost d: Snapshot)
    requires parentDep == up.dep && menu != up && Same(menu, d) && modules == d.modules
    requires Has(up, d) && After(d, menu) == Passes(menu, After(d, up).dep, Before(d, menu), d.modules)
    modifies menu`dep, menu`visible
    ensures Has(menu, d)
  {
    menu.dep := Propagate(parentDep, menu.dep, modules);
    if menu.hasPrompt {
      var c := Propagate(menu.dep, menu.visible, modules);
      if c.Some? && menu.sym.Some? && menu.sym.value.stype != Tristate {
        c := Some(TransBool(c.value));
      }
      menu.visible := c;
    }
  }

  /** The first loop over the children. */
  method PropagateAll(p: Menu, modules: Symbol, ghost k: Forest, ghost d: Snapshot)
    requires Siblings(k, p.list, p, null) && p !in Nodes(k) && Initial(k, d)
    requires Has(p, d) && Expected(k, p, d) && modules == d.modules
    modifies Nodes(k)`dep, Nodes(k)`visible
    ensures InitialKids(k, d)
  {
    var parentDep := p.dep;
    var menu := p.list;
    ghost var x, rest := Nil, k;
    while menu != null
      invariant PassedOn(p, x, rest, menu, k, d)
      decreases rest
    {
      FirstIsNode(p, x, rest, menu, k, d);
      hide InitialKids, Initial, Distinct;
      x := PropagateNext(p, menu, parentDep, modules, x, rest, k, d);
      menu := menu.next;
      rest := rest.rest;
    }
    ConcatNil(x);
  }

  /** The children `x` have got the dependency of `p`, `rest` from `menu` on not yet. */
  ghost predicate PassedOn(p: Menu, x: Forest, rest: Forest, menu: Menu?, k: Forest, d: Snapshot)
    reads p`dep, p`visible, Nodes(x)`dep, Nodes(x)`visible, Nodes(rest)
  {
    && k == Concat(x, rest) && Distinct(k) && p !in Nodes(k)
    && Linked(rest, menu, p, null) && Initial(rest, d) && Expected(rest, p, d)
    && Has(p, d) && InitialKids(x, d)
  }

  lemma {:induction false} FirstIsNode(p: Menu, x: Forest, rest: Forest, menu: Menu, k: Forest, d: Snapshot)
    requires PassedOn(p, x, rest, menu, k, d)
    ensures rest.Node? && menu in Nodes(k)
  {
    ConcatNodes(x, rest);
  }

  method PropagateNext(p: Menu, menu: Menu, parentDep: Option<Expr>, modules: Symbol, ghost x: Forest,
          ghost rest: Forest, ghost k: Forest, ghost d: Snapshot)
    returns (ghost x': Forest)
    requires PassedOn(p, x, rest, menu, k, d) && parentDep == p.dep && modules == d.modules
    modifies menu`dep, menu`visible
    ensures rest.Node? && PassedOn(p, x', rest.rest, menu.next, k, d)
  {
    ConcatDistinct(x, rest);
    ConcatNodes(x, rest);
    assert allocated(Nodes(rest.kids)) && allocated(Nodes(rest.rest)) && allocated(Nodes(x));
    PropagateTo(menu, p, parentDep, modules, d);
    InitialKidsExtend(x, menu, rest.kids, d);
    ConcatAssociates(x, Node(menu, rest.kids, Nil), rest.rest);
    x' := Concat(x, Node(menu, rest.kids, Nil));
  }

  lemma {:induction false} InitialKidsExtend(x: Forest, m: Menu, k: Forest, d: Snapshot)
    requires InitialKids(x, d) && Initial(k, d) && Has(m, d) && Expected(k, m, d)
    ensures InitialKids(Concat(x, Node(m, k, Nil)), d)
  {
    if x.Node? {
      InitialKidsExtend(x.rest, m, k, d);
    }
  }

  // ---- The recursion ----

  /** Whether `menu`, some sibling after `p`, goes below it. */
  predicate Belongs(base: Option<Expr>, p: Menu, menu: Menu)
    requires p.sym.Some?
    reads menu`dep, menu`visible
  {
    GoesBelow(base, if menu.hasPrompt then menu.visible else menu.dep, p.sym.value)
  }

  function BaseOf(p: Menu): Option<Expr>
    reads p`visible
  {
    if p.hasPrompt then p.visible else None
  }

  /** `menu_finalize`. `k` are the nodes below `p` and `r` those after it, `d` the expressions as read; afterwards
      `taken` of `r` have moved below `p`, and `log` are the nodes finalised, in order. */
  method Finalize(p: Menu, modules: Symbol, ghost up: Menu?, ghost k: Forest, ghost r: Forest, ghost d: Snapshot)
    returns (ghost k': Forest, ghost r': Forest, ghost taken: Forest, ghost log: seq<Menu>)
    requires Siblings(Node(p, k, r), p, up, null) && modules == d.modules
    requires Has(p, d) && Initial(k, d) && Expected(k, p, d) && InitialKids(r, d)
    modifies Nodes(Node(p, k, r))
    ensures Siblings(Node(p, k', r'), p, up, null)
    ensures SameOrder(k', r', k, r) && r == Concat(taken, r')
    ensures log == [p] + Preorder(k')
    ensures AllHave(Nodes(k), d) && AllHave(Nodes(taken), d) && InitialKids(r', d)
    ensures p.dep == old(p.dep) && p.visible == old(p.visible)
    ensures k' == Arranged(p, k, r, d).kids && r' == Arranged(p, k, r, d).rest && Prompted(k')
    decreases Count(k) + Count(r), 6
  {
    hide *;
    ghost var mid;
    mid, r', taken, log := Gather(p, modules, up, k, r, d);
    log := [p] + log;
    MidIsReady(p, up, mid, r', k, r);
    assert allocated(Nodes(k)) && allocated(Nodes(taken)) && allocated(Nodes(r'));
    k' := FlattenAll(p, mid);
    FlatIsPrompted(mid);
    OrderKept(k', mid, r', k, r);
    EndIsReady(p, up, mid, k', r');
    ArrangedIs(p, k, r, d);
  }

  lemma {:induction false} ArrangedIs(p: Menu, k: Forest, r: Forest, d: Snapshot)
    ensures Arranged(p, k, r, d).kids == Flat(Gathered(p, k, r, d).kids)
    ensures Arranged(p, k, r, d).rest == Gathered(p, k, r, d).rest
  {
  }

  lemma {:induction false} MidIsReady(p: Menu, up: Menu?, mid: Forest, r': Forest, k: Forest, r: Forest)
    requires Siblings(Node(p, mid, r'), p, up, null) && SameOrder(mid, r', k, r)
    ensures Nodes(mid) <= Nodes(Node(p, k, r))
    ensures Siblings(mid, p.list, p, null) && Siblings(r', p.next, up, null)
    ensures p !in Nodes(mid) && p !in Nodes(r') && Nodes(mid) !! Nodes(r') && p.parent == up
  {
  }

  lemma {:induction false} EndIsReady(p: Menu, up: Menu?, mid: Forest, k': Forest, r': Forest)
    requires Siblings(k', p.list, p, null) && Siblings(r', p.next, up, null) && Rearranged(k', mid) && p.parent == up
    requires p !in Nodes(mid) && p !in Nodes(r') && Nodes(mid) !! Nodes(r')
    ensures Siblings(Node(p, k', r'), p, up, null) && Preorder(k') == Preorder(mid)
  {
  }

  /** What comes to be below `p`, before flattening. */
  method Gather(p: Menu, modules: Symbol, ghost up: Menu?, ghost k: Forest, ghost r: Forest, ghost d: Snapshot)
    returns (ghost mid: Forest, ghost r': Forest, ghost taken: Forest, ghost log: seq<Menu>)
    requires Siblings(Node(p, k, r), p, up, null) && modules == d.modules
    requires Has(p, d) && Initial(k, d) && Expected(k, p, d) && InitialKids(r, d)
    modifies Nodes(Node(p, k, r))
    ensures Siblings(Node(p, mid, r'), p, up, null)
    ensures SameOrder(mid, r', k, r) && r == Concat(taken, r')
    ensures log == Preorder(mid) && KidsPrompted(mid)
    ensures AllHave(Nodes(k), d) && AllHave(Nodes(taken), d) && InitialKids(r', d)
    ensures p.dep == old(p.dep) && p.visible == old(p.visible)
    ensures mid == Gathered(p, k, r, d).kids && r' == Gathered(p, k, r, d).rest
    decreases Count(k) + Count(r), 5
  {
    StartIsReady(p, up, k, r);
    assert allocated(Nodes(k)) && allocated(Nodes(r));
    GatheredIs(p, k, r, d);
    hide Linked, Distinct, Preorder, Siblings, KidsPrompted, AllHave, InitialKids, Initial, Expected, SameOrder;
    hide Nodes, Count, Concat, Run, Gathered, Rearranged;
    taken, mid, r', log := Nil, Nil, r, [];
    if p.list != null {
      PropagateAll(p, modules, k, d);
      mid, log := FinalizeChildren(p, modules, k, d);
      ChildrenKeep(p, up, mid, k, r);
    } else if p.sym.Some? {
      mid, r', taken, log := AutoSubmenu(p, modules, up, r, d);
    }
  }

  lemma {:induction false} StartIsReady(p: Menu, up: Menu?, k: Forest, r: Forest)
    requires Siblings(Node(p, k, r), p, up, null)
    ensures Siblings(k, p.list, p, null) && Siblings(r, p.next, up, null)
    ensures p !in Nodes(k) && p !in Nodes(r) && Nodes(k) !! Nodes(r) && (p.list == null <==> k.Nil?)
    ensures Concat(Nil, r) == r && Nodes(Nil) == {} && Nodes(Node(p, k, r)) == {p} + Nodes(k) + Nodes(r)
    ensures p.parent == up && Preorder(Nil) == [] && KidsPrompted(Nil)
    ensures Count(k) + Count(r) >= Count(k) && (k.Nil? ==> Count(k) == 0)
    ensures SameOrder(k, r, k, r)
  {
    assert Linked(k, p.list, p, null);
  }

  lemma {:induction false} GatheredIs(p: Menu, k: Forest, r: Forest, d: Snapshot)
    ensures var o := Gathered(p, k, r, d);
            if k.Node? then o.kids == Run(null, k, d).kids && o.rest == r
            else if p.sym.Some? then o.kids == Run(p, r, d).kids && o.rest == Run(p, r, d).rest
            else o.kids == Nil && o.rest == r
  {
  }

  lemma {:induction false} ChildrenKeep(p: Menu, up: Menu?, mid: Forest, k: Forest, r: Forest)
    requires Siblings(mid, p.list, p, null) && Siblings(r, p.next, up, null) && Rearranged(mid, k) && p.parent == up
    requires p !in Nodes(k) && p !in Nodes(r) && Nodes(k) !! Nodes(r)
    ensures Siblings(Node(p, mid, r), p, up, null) && SameOrder(mid, r, k, r)
  {
    hide Preorder, Count;
  }

  /** The loop that finalises the children of a node that has some. */
  method FinalizeChildren(p: Menu, modules: Symbol, ghost k: Forest, ghost d: Snapshot)
    returns (ghost mid: Forest, ghost log: seq<Menu>)
    requires Siblings(k, p.list, p, null) && p !in Nodes(k)
    requires InitialKids(k, d) && modules == d.modules
    modifies Nodes(k)
    ensures mid == Run(null, k, d).kids
    ensures Siblings(mid, p.list, p, null) && Rearranged(mid, k)
    ensures log == Preorder(mid) && KidsPrompted(mid)
    ensures AllHave(Nodes(k), d)
    decreases Count(k), 2
  {
    mid, log := Nil, [];
    var menu := p.list;
    ghost var x, rest := Nil, k;
    NothingDone(p, k, d);
    while menu != null
      invariant LinksInv(p, menu, mid, rest, k) && Progress(x, rest, k, d)
      invariant log == Preorder(mid) && KidsPrompted(mid) && Underway(null, mid, rest, k, d)
      decreases Count(rest)
    {
      hide Linked, Preorder, KidsPrompted, Underway, Run;
      ghost var l;
      mid, x, rest, l := FinalizeNext(p, modules, menu, mid, x, rest, k, d);
      log := log + l;
      menu := menu.next;
    }
    ChildrenDone(p, mid, x, rest, k, d);
    UnderwayEnds(null, mid, rest, k, d);
  }

  /** `done` is linked below `p` and finalised, `rest` still to do. */
  ghost predicate LinksInv(p: Menu, menu: Menu?, done: Forest, rest: Forest, k: Forest)
    reads p`list, Nodes(done)`next, Nodes(done)`parent, Nodes(done)`list
    reads Nodes(rest)`next, Nodes(rest)`parent, Nodes(rest)`list
  {
    && Siblings(done, p.list, p, menu) && Siblings(rest, menu, p, null)
    && Nodes(done) !! Nodes(rest) && SameOrder(done, rest, Nil, k)
  }

  /** Of the nodes `k` as read, `x` are finalised and `rest` not yet. */
  ghost predicate Progress(x: Forest, rest: Forest, k: Forest, d: Snapshot)
    reads Nodes(x)`dep, Nodes(x)`visible, Nodes(rest)`dep, Nodes(rest)`visible
  {
    k == Concat(x, rest) && Distinct(k) && AllHave(Nodes(x), d) && InitialKids(rest, d)
  }

  lemma {:induction false} NothingDone(p: Menu, k: Forest, d: Snapshot)
    requires Siblings(k, p.list, p, null)
    requires InitialKids(k, d)
    ensures LinksInv(p, p.list, Nil, k, k) && Progress(Nil, k, k, d)
    ensures Preorder(Nil) == [] && KidsPrompted(Nil)
  {
  }

  lemma {:induction false} ChildrenDone(p: Menu, mid: Forest, x: Forest, rest: Forest, k: Forest, d: Snapshot)
    requires LinksInv(p, null, mid, rest, k) && Progress(x, rest, k, d)
    ensures Siblings(mid, p.list, p, null) && Rearranged(mid, k) && AllHave(Nodes(k), d)
  {
    AllDone(mid, rest, k);
    ConcatNil(x);
  }

  /** One turn of the loop. */
  method FinalizeNext(p: Menu, modules: Symbol, menu: Menu, ghost done: Forest, ghost x: Forest,
          ghost rest: Forest, ghost k: Forest, ghost d: Snapshot)
    returns (ghost done': Forest, ghost x': Forest, ghost rest': Forest, ghost log: seq<Menu>)
    requires LinksInv(p, menu, done, rest, k) && Progress(x, rest, k, d)
    requires p !in Nodes(rest) && rest.Node? && KidsPrompted(done) && Underway(null, done, rest, k, d)
    requires modules == d.modules
    modifies Nodes(rest)
    ensures LinksInv(p, menu.next, done', rest', k) && Progress(x', rest', k, d)
    ensures Underway(null, done', rest', k, d)
    ensures Preorder(done') == Preorder(done) + log && KidsPrompted(done')
    ensures Count(rest') < Count(rest) && Nodes(rest') <= Nodes(rest)
    decreases Count(rest), 1
  {
    NextIsReady(p, menu, done, x, rest, k, d);
    assert allocated(Nodes(done));
    hide *;
    UnderwayStep(null, done, rest, k, d);
    ghost var kids;
    kids, x', rest', log := FinalizeSibling(menu, modules, p, x, rest, k, d);
    LinksStep(p, menu, done, kids, rest, rest', k);
    done' := Concat(done, Node(menu, kids, Nil));
  }

  lemma {:induction false} NextIsReady(p: Menu, menu: Menu, done: Forest, x: Forest, rest: Forest, k: Forest,
          d: Snapshot)
    requires LinksInv(p, menu, done, rest, k) && Progress(x, rest, k, d) && rest.Node?
    ensures rest == Node(menu, rest.kids, rest.rest) && k == Concat(x, rest) && Distinct(k)
    ensures Has(menu, d) && Initial(rest.kids, d) && Expected(rest.kids, menu, d) && InitialKids(rest.rest, d)
    ensures AllHave(Nodes(x), d) && Siblings(rest, menu, p, null)
    ensures Siblings(done, p.list, p, menu) && Nodes(done) !! Nodes(rest) && SameOrder(done, rest, Nil, k)
  {
  }

  lemma {:induction false} LinksStep(p: Menu, menu: Menu, done: Forest, kids: Forest, rest: Forest, rest': Forest,
          k: Forest)
    requires Siblings(done, p.list, p, menu) && Siblings(Node(menu, kids, rest'), menu, p, null)
    requires rest.Node? && rest.m == menu && Nodes(done) !! Nodes(rest) && SameOrder(done, rest, Nil, k)
    requires SameOrder(kids, rest', rest.kids, rest.rest) && KidsPrompted(done) && Prompted(kids)
    ensures var done' := Concat(done, Node(menu, kids, Nil));
            && LinksInv(p, menu.next, done', rest', k) && KidsPrompted(done')
            && Preorder(done') == Preorder(done) + ([menu] + Preorder(kids))
            && Count(rest') < Count(rest) && Nodes(rest') <= Nodes(rest)
  {
    Extends(done, p.list, p, menu, kids);
    OrderExtends(done, Concat(done, Node(menu, kids, Nil)), menu, kids, rest', rest, k);
    KidsPromptedConcat(done, Node(menu, kids, Nil));
  }

  /** The first of `rest`, with what was below it and what it took, is finalised. */
  lemma {:induction false} ProgressStep(menu: Menu, x: Forest, taken: Forest, rest: Forest, rest': Forest, k: Forest,
          d: Snapshot)
    requires rest.Node? && rest.m == menu && k == Concat(x, rest) && rest.rest == Concat(taken, rest') && Distinct(k)
    requires AllHave(Nodes(x), d) && Has(menu, d) && AllHave(Nodes(rest.kids), d) && AllHave(Nodes(taken), d)
    requires InitialKids(rest', d)
    ensures Progress(Concat(x, Node(menu, rest.kids, taken)), rest', k, d)
  {
    var one := Node(menu, rest.kids, taken);
    assert Nodes(one) == {menu} + Nodes(rest.kids) + Nodes(taken);
    ConcatNodes(x, one);
    ConcatAssociates(x, one, rest');
  }

  /** The siblings taken so far: `front` and then `last`, with `kids` below it. */
  ghost predicate Taken(front: Forest, last: Menu?, kids: Forest, head: Menu?, up: Menu?, tail: Menu?)
    reads Nodes(front)`next, Nodes(front)`parent, Nodes(front)`list
    reads Nodes(kids)`next, Nodes(kids)`parent, Nodes(kids)`list
    reads if last == null then {} else {last}
  {
    if last == null then front == Nil && kids == Nil && head == tail else
      && Siblings(front, head, up, last) && last.parent == up
      && last.next == tail && Siblings(kids, last.list, last, null)
      && last !in Nodes(front) && last !in Nodes(kids) && Nodes(front) !! Nodes(kids)
  }

  ghost function All(front: Forest, last: Menu?, kids: Forest): Forest {
    if last == null then Nil else Concat(front, Node(last, kids, Nil))
  }

  lemma {:induction false} TakenAll(front: Forest, last: Menu?, kids: Forest, head: Menu?, up: Menu?, tail: Menu?)
    requires Taken(front, last, kids, head, up, tail)
    ensures Siblings(All(front, last, kids), head, up, tail)
    ensures last != null ==>
              var f := All(front, last, kids);
              && Nodes(f) == Nodes(front) + {last} + Nodes(kids)
              && Preorder(f) == Preorder(front) + ([last] + Preorder(kids))
              && Count(f) == Count(front) + 1 + Count(kids)
  {
    if last != null {
      Extends(front, head, up, last, kids);
    }
  }

  /** The links after a submenu is cut out of the list of siblings. */
  method Splice(p: Menu, last: Menu, ghost up: Menu?, ghost front: Forest, ghost kids: Forest, ghost rest: Forest)
    requires Taken(front, last, kids, p.next, p, last.next) && Siblings(rest, last.next, up, null)
    requires p !in Nodes(All(front, last, kids)) && p !in Nodes(rest) && Nodes(All(front, last, kids)) !! Nodes(rest)
    requires p.parent == up
    modifies p`list, p`next, last`next
    ensures Siblings(Node(p, All(front, last, kids), rest), p, up, null)
  {
    TakenAll(front, last, kids, p.next, p, last.next);
    p.list := p.next;
    p.next := last.next;
    last.next := null;
    assert Taken(front, last, kids, p.list, p, null);
    TakenAll(front, last, kids, p.list, p, null);
  }

  /** Automatic submenu creation for a symbol without children. */
  method AutoSubmenu(p: Menu, modules: Symbol, ghost up: Menu?, ghost r: Forest, ghost d: Snapshot)
    returns (ghost mid: Forest, ghost r': Forest, ghost taken: Forest, ghost log: seq<Menu>)
    requires Siblings(Node(p, Nil, r), p, up, null) && p.sym.Some? && InitialKids(r, d) && Has(p, d)
    requires modules == d.modules
    modifies Nodes(Node(p, Nil, r))
    ensures Siblings(Node(p, mid, r'), p, up, null)
    ensures SameOrder(mid, r', Nil, r) && r == Concat(taken, r')
    ensures log == Preorder(mid) && KidsPrompted(mid)
    ensures AllHave(Nodes(taken), d) && InitialKids(r', d)
    ensures p.dep == old(p.dep) && p.visible == old(p.visible)
    ensures mid == Run(p, r, d).kids && r' == Run(p, r, d).rest
    decreases Count(r), 4
  {
    assert Nodes(Node(p, Nil, r)) == {p} + Nodes(r);
    hide *;
    var last, menu;
    ghost var front, kids;
    last, menu, front, kids, r', taken, log := Search(p, modules, up, r, d);
    mid := All(front, last, kids);
    CutOut(p, last, modules, up, menu, front, kids, r', r, taken, d);
  }

  /** What was found, if anything, leaves the list of siblings. */
  method CutOut(p: Menu, last: Menu?, modules: Symbol, ghost up: Menu?, ghost menu: Menu?, ghost front: Forest,
          ghost kids: Forest, ghost rest: Forest, ghost r: Forest, ghost taken: Forest, ghost d: Snapshot)
    requires SubLinks(p, menu, up, front, last, kids, rest, r) && Progress(taken, rest, r, d)
    modifies p`list, p`next, Nodes(r)`next
    ensures Siblings(Node(p, All(front, last, kids), rest), p, up, null)
    ensures SameOrder(All(front, last, kids), rest, Nil, r) && r == Concat(taken, rest)
    ensures AllHave(Nodes(taken), d) && InitialKids(rest, d)
  {
    SearchEnds(p, menu, up, front, last, kids, rest, r, taken, d);
    hide *;
    assert allocated(Nodes(taken)) && allocated(Nodes(rest));
    if last != null {
      Splice(p, last, up, front, kids, rest);
    }
  }

  /** The links at the end of the search, before anything is cut out. */
  ghost predicate Found(p: Menu, last: Menu?, up: Menu?, front: Forest, kids: Forest, rest: Forest)
    reads p`next, p`parent, p`list, Nodes(rest)`next, Nodes(rest)`parent, Nodes(rest)`list
    reads Nodes(front)`next, Nodes(front)`parent, Nodes(front)`list
    reads Nodes(kids)`next, Nodes(kids)`parent, Nodes(kids)`list
    reads if last == null then {} else {last}
  {
    var f := All(front, last, kids);
    && (last != null ==>
          && Taken(front, last, kids, p.next, p, last.next) && Siblings(rest, last.next, up, null)
          && p !in Nodes(f) && p !in Nodes(rest) && Nodes(f) !! Nodes(rest) && p.parent == up)
    && (last == null ==> Siblings(Node(p, f, rest), p, up, null))
  }

  /** The loop over the siblings after `p`; `last` is the last that goes below it, `menu` the first that does not. */
  method Search(p: Menu, modules: Symbol, ghost up: Menu?, ghost r: Forest, ghost d: Snapshot)
    returns (last: Menu?, menu: Menu?, ghost front: Forest, ghost kids: Forest, ghost r': Forest, ghost taken: Forest,
             ghost log: seq<Menu>)
    requires Siblings(Node(p, Nil, r), p, up, null) && p.sym.Some? && InitialKids(r, d) && Has(p, d)
    requires modules == d.modules
    modifies Nodes(r)
    ensures SubLinks(p, menu, up, front, last, kids, r', r) && Progress(taken, r', r, d)
    ensures log == Preorder(All(front, last, kids)) && KidsPrompted(All(front, last, kids))
    ensures p.dep == old(p.dep) && p.visible == old(p.visible)
    ensures All(front, last, kids) == Run(p, r, d).kids && r' == Run(p, r, d).rest
    decreases Count(r), 3
  {
    var base := if p.hasPrompt then p.visible else None;
    last := null;
    menu := p.next;
    log, r', taken, front, kids := [], r, Nil, Nil, Nil;
    SearchStarts(p, up, r, d);
    hide Linked, Distinct, Preorder, Siblings, KidsPrompted, AllHave, InitialKids, Initial, Expected, SameOrder;
    hide GoesBelow, All, Nodes, Count, Concat, SubLinks, Progress, Underway, Run, Goes, Belongs;
    while menu != null
      invariant SubLinks(p, menu, up, front, last, kids, r', r) && Progress(taken, r', r, d)
      invariant KidsPrompted(All(front, last, kids)) && log == Preorder(All(front, last, kids))
      invariant Underway(p, All(front, last, kids), r', r, d)
      invariant p.dep == old(p.dep) && p.visible == old(p.visible)
      invariant Nodes(r') <= Nodes(r) && Count(r') <= Count(r)
      decreases Count(r')
    {
      DecisionIs(p, menu, base, r', taken, r, up, front, last, kids, d);
      if !Belongs(base, p, menu) {
        break;
      }
      ghost var l;
      front, kids, taken, r', l := TakeNext(p, modules, menu, up, front, last, kids, taken, r', r, d);
      last, log := menu, log + l;
      menu := menu.next;
    }
    SearchStops(p, menu, base, r', taken, r, up, front, last, kids, d);
    UnderwayEnds(p, All(front, last, kids), r', r, d);
  }

  /** The decision of the loop is the one that the final expressions give. */
  lemma {:induction false} DecisionIs(p: Menu, menu: Menu, base: Option<Expr>, rest: Forest, taken: Forest, r: Forest,
          up: Menu?, front: Forest, last: Menu?, kids: Forest, d: Snapshot)
    requires SubLinks(p, menu, up, front, last, kids, rest, r) && Progress(taken, rest, r, d)
    requires p.sym.Some? && Has(p, d) && base == BaseOf(p)
    ensures rest.Node? && rest.m == menu && (Belongs(base, p, menu) <==> Goes(p, menu, d))
  {
  }

  lemma {:induction false} SearchStops(p: Menu, menu: Menu?, base: Option<Expr>, rest: Forest, taken: Forest, r: Forest,
          up: Menu?, front: Forest, last: Menu?, kids: Forest, d: Snapshot)
    requires SubLinks(p, menu, up, front, last, kids, rest, r) && Progress(taken, rest, r, d)
    requires p.sym.Some? && Has(p, d) && base == BaseOf(p) && (menu != null ==> !Belongs(base, p, menu))
    ensures rest.Nil? || !Goes(p, rest.m, d)
  {
    if rest.Node? {
      DecisionIs(p, rest.m, base, rest, taken, r, up, front, last, kids, d);
    }
  }

  lemma {:induction false} SearchEnds(p: Menu, menu: Menu?, up: Menu?, front: Forest, last: Menu?, kids: Forest,
          rest: Forest, r: Forest, taken: Forest, d: Snapshot)
    requires SubLinks(p, menu, up, front, last, kids, rest, r) && Progress(taken, rest, r, d)
    ensures var f := All(front, last, kids);
            && SameOrder(f, rest, Nil, r) && r == Concat(taken, rest)
            && AllHave(Nodes(taken), d) && InitialKids(rest, d)
            && (last != null ==> last in Nodes(r)) && Found(p, last, up, front, kids, rest)
    ensures Nodes(Node(p, Nil, r)) == {p} + Nodes(r)
  {
    TakenAll(front, last, kids, p.next, p, menu);
  }

  /** `front`, `last` and `kids` have been taken from the siblings `r` after `p`; the search is at `menu`. */
  ghost predicate SubLinks(p: Menu, menu: Menu?, up: Menu?, front: Forest, last: Menu?, kids: Forest, rest: Forest,
          r: Forest)
    reads p`next, p`parent, p`list, Nodes(rest)`next, Nodes(rest)`parent, Nodes(rest)`list
    reads Nodes(front)`next, Nodes(front)`parent, Nodes(front)`list
    reads Nodes(kids)`next, Nodes(kids)`parent, Nodes(kids)`list
    reads if last == null then {} else {last}
  {
    var f := All(front, last, kids);
    && p.parent == up && p.list == null
    && Taken(front, last, kids, p.next, p, menu) && Siblings(rest, menu, up, null)
    && p !in Nodes(f) && p !in Nodes(rest) && Nodes(f) !! Nodes(rest)
    && SameOrder(f, rest, Nil, r)
  }

  lemma {:induction false} SearchStarts(p: Menu, up: Menu?, r: Forest, d: Snapshot)
    requires Siblings(Node(p, Nil, r), p, up, null) && p.sym.Some? && InitialKids(r, d)
    ensures SubLinks(p, p.next, up, Nil, null, Nil, r, r) && Progress(Nil, r, r, d)
    ensures All(Nil, null, Nil) == Nil && KidsPrompted(Nil) && Preorder(Nil) == [] && Underway(p, Nil, r, r, d)
  {
    assert Linked(Nil, p.list, p, null);
  }

  /** One sibling is finalised and becomes a child of `p`. */
  method TakeNext(p: Menu, modules: Symbol, menu: Menu, ghost up: Menu?, ghost front: Forest,
          ghost last: Menu?, ghost kids: Forest, ghost taken: Forest, ghost rest: Forest, ghost r: Forest,
          ghost d: Snapshot)
    returns (ghost front': Forest, ghost kids': Forest, ghost taken': Forest, ghost rest': Forest, ghost log: seq<Menu>)
    requires SubLinks(p, menu, up, front, last, kids, rest, r) && Progress(taken, rest, r, d)
    requires p.sym.Some? && KidsPrompted(All(front, last, kids)) && Goes(p, menu, d) && modules == d.modules
    requires Underway(p, All(front, last, kids), rest, r, d)
    modifies Nodes(rest)
    ensures SubLinks(p, menu.next, up, front', menu, kids', rest', r) && Progress(taken', rest', r, d)
    ensures KidsPrompted(All(front', menu, kids')) && Underway(p, All(front', menu, kids'), rest', r, d)
    ensures Preorder(All(front', menu, kids')) == Preorder(All(front, last, kids)) + log
    ensures Count(rest') < Count(rest) && Nodes(rest') <= Nodes(rest)
    decreases Count(rest), 2
  {
    hide *;
    front', kids', taken', rest', log := Prepare(p, modules, menu, up, front, last, kids, taken, rest, r, d);
    assert allocated(Nodes(taken')) && allocated(Nodes(rest'));
    Adopt(p, menu, up, front', kids', rest', r);
  }

  /** The sibling `menu` is finalised; its parent field is still to be set. */
  ghost predicate Prepared(p: Menu, menu: Menu, up: Menu?, front: Forest, kids: Forest, rest: Forest, r: Forest)
    reads p`next, p`parent, p`list, menu`next, menu`parent, menu`list
    reads Nodes(rest)`next, Nodes(rest)`parent, Nodes(rest)`list
    reads Nodes(front)`next, Nodes(front)`parent, Nodes(front)`list
    reads Nodes(kids)`next, Nodes(kids)`parent, Nodes(kids)`list
  {
    var f := All(front, menu, kids);
    && p.parent == up && p.list == null
    && Siblings(front, p.next, p, menu) && Siblings(Node(menu, kids, rest), menu, up, null)
    && Nodes(f) == Nodes(front) + {menu} + Nodes(kids)
    && menu !in Nodes(front) && Nodes(front) !! Nodes(kids)
    && p !in Nodes(f) && p !in Nodes(rest) && Nodes(f) !! Nodes(rest)
    && SameOrder(f, rest, Nil, r)
  }

  method Prepare(p: Menu, modules: Symbol, menu: Menu, ghost up: Menu?, ghost front: Forest,
          ghost last: Menu?, ghost kids: Forest, ghost taken: Forest, ghost rest: Forest, ghost r: Forest,
          ghost d: Snapshot)
    returns (ghost front': Forest, ghost kids': Forest, ghost taken': Forest, ghost rest': Forest, ghost log: seq<Menu>)
    requires SubLinks(p, menu, up, front, last, kids, rest, r) && Progress(taken, rest, r, d)
    requires p.sym.Some? && KidsPrompted(All(front, last, kids)) && Goes(p, menu, d) && modules == d.modules
    requires Underway(p, All(front, last, kids), rest, r, d)
    modifies Nodes(rest)
    ensures Prepared(p, menu, up, front', kids', rest', r) && Progress(taken', rest', r, d)
    ensures KidsPrompted(All(front', menu, kids')) && Underway(p, All(front', menu, kids'), rest', r, d)
    ensures Preorder(All(front', menu, kids')) == Preorder(All(front, last, kids)) + log
    ensures Count(rest') < Count(rest) && Nodes(rest') <= Nodes(rest)
    ensures p.next == old(p.next) && menu in Nodes(rest)
    decreases Count(rest), 1
  {
    front' := All(front, last, kids);
    TakeIsReady(p, menu, up, front, last, kids, taken, rest, r, d);
    assert allocated(Nodes(front'));
    hide *;
    kids', taken', rest', log := FinalizeSibling(menu, modules, up, taken, rest, r, d);
    TakeMid(menu, front', kids');
    TakeStep(p, menu, front', kids', rest, rest', r, d);
    TakeOrder(p, menu, front', kids', rest, rest', r, up);
    assert Prepared(p, menu, up, front', kids', rest', r) by {
      IsPrepared(p, menu, up, front', kids', rest', r);
    }
  }

  lemma {:induction false} IsPrepared(p: Menu, menu: Menu, up: Menu?, front: Forest, kids: Forest, rest: Forest,
          r: Forest)
    requires p.parent == up && p.list == null
    requires Siblings(front, p.next, p, menu) && Siblings(Node(menu, kids, rest), menu, up, null)
    requires var f := All(front, menu, kids);
             && Nodes(f) == Nodes(front) + {menu} + Nodes(kids) && menu !in Nodes(front) && Nodes(front) !! Nodes(kids)
             && p !in Nodes(f) && p !in Nodes(rest) && Nodes(f) !! Nodes(rest) && SameOrder(f, rest, Nil, r)
    ensures Prepared(p, menu, up, front, kids, rest, r)
  {
  }

  method FinalizeSibling(menu: Menu, modules: Symbol, ghost up: Menu?, ghost taken: Forest, ghost rest: Forest,
          ghost r: Forest, ghost d: Snapshot)
    returns (ghost kids: Forest, ghost taken': Forest, ghost rest': Forest, ghost log: seq<Menu>)
    requires rest.Node? && rest == Node(menu, rest.kids, rest.rest) && r == Concat(taken, rest) && Distinct(r)
    requires Siblings(rest, menu, up, null) && AllHave(Nodes(taken), d)
    requires Has(menu, d) && Initial(rest.kids, d) && Expected(rest.kids, menu, d) && InitialKids(rest.rest, d)
    requires modules == d.modules
    modifies Nodes(rest)
    ensures kids == Arranged(menu, rest.kids, rest.rest, d).kids
    ensures rest' == Arranged(menu, rest.kids, rest.rest, d).rest
    ensures Siblings(Node(menu, kids, rest'), menu, up, null) && SameOrder(kids, rest', rest.kids, rest.rest)
    ensures log == [menu] + Preorder(kids) && Prompted(kids)
    ensures Progress(taken', rest', r, d)
    ensures menu.dep == old(menu.dep) && menu.visible == old(menu.visible)
    decreases Count(rest), 0
  {
    SiblingIsReady(menu, taken, rest, r);
    assert allocated(Nodes(taken));
    hide Linked, Distinct, Preorder, Count, Siblings, AllHave, InitialKids, Initial, Prompted, KidsPrompted, Flat;
    hide SameOrder, Progress, Arranged, Concat, Nodes, Expected;
    ghost var t;
    kids, rest', t, log := Finalize(menu, modules, up, rest.kids, rest.rest, d);
    taken' := Concat(taken, Node(menu, rest.kids, t));
    ProgressStep(menu, taken, t, rest, rest', r, d);
  }

  lemma {:induction false} SiblingIsReady(menu: Menu, taken: Forest, rest: Forest, r: Forest)
    requires rest.Node? && rest == Node(menu, rest.kids, rest.rest) && r == Concat(taken, rest) && Distinct(r)
    ensures Nodes(taken) !! Nodes(rest)
    ensures Count(rest) == 1 + Count(rest.kids) + Count(rest.rest)
    ensures Nodes(rest) == {menu} + Nodes(rest.kids) + Nodes(rest.rest)
  {
    ConcatDistinct(taken, rest);
  }

  lemma {:induction false} TakeIsReady(p: Menu, menu: Menu, up: Menu?, front: Forest, last: Menu?, kids: Forest,
          taken: Forest, rest: Forest, r: Forest, d: Snapshot)
    requires SubLinks(p, menu, up, front, last, kids, rest, r) && Progress(taken, rest, r, d)
    ensures var f := All(front, last, kids);
            && rest.Node? && rest == Node(menu, rest.kids, rest.rest) && r == Concat(taken, rest)
            && Siblings(f, p.next, p, menu) && Siblings(Node(menu, rest.kids, rest.rest), menu, up, null)
            && p !in Nodes(f) && p !in Nodes(rest) && Nodes(f) !! Nodes(rest) && SameOrder(f, rest, Nil, r)
            && p.parent == up && p.list == null
    ensures Initial(rest.kids, d) && InitialKids(rest.rest, d) && AllHave(Nodes(taken), d) && Distinct(r)
    ensures Has(menu, d) && Expected(rest.kids, menu, d)
    ensures Nodes(rest) == {menu} + Nodes(rest.kids) + Nodes(rest.rest)
  {
    TakenAll(front, last, kids, p.next, p, menu);
  }

  lemma {:induction false} TakeMid(menu: Menu, front: Forest, kids: Forest)
    requires KidsPrompted(front) && Prompted(kids)
    ensures KidsPrompted(All(front, menu, kids))
  {
    KidsPromptedConcat(front, Node(menu, kids, Nil));
  }

  lemma {:induction false} TakeStep(p: Menu, menu: Menu, front: Forest, kids: Forest, rest: Forest, rest': Forest,
          r: Forest, d: Snapshot)
    requires p.sym.Some? && rest.Node? && rest.m == menu && Goes(p, menu, d) && Underway(p, front, rest, r, d)
    requires kids == Arranged(menu, rest.kids, rest.rest, d).kids
    requires rest' == Arranged(menu, rest.kids, rest.rest, d).rest
    ensures Underway(p, All(front, menu, kids), rest', r, d)
  {
    UnderwayStep(p, front, rest, r, d);
  }

  lemma {:induction false} TakeOrder(p: Menu, menu: Menu, front: Forest, kids: Forest, rest: Forest, rest': Forest,
          r: Forest, up: Menu?)
    requires Siblings(Node(menu, kids, rest'), menu, up, null) && rest.Node? && rest == Node(menu, rest.kids, rest.rest)
    requires SameOrder(front, rest, Nil, r) && SameOrder(kids, rest', rest.kids, rest.rest)
    requires p !in Nodes(front) && p !in Nodes(rest) && Nodes(front) !! Nodes(rest)
    ensures var f := All(front, menu, kids);
            && SameOrder(f, rest', Nil, r) && Preorder(f) == Preorder(front) + ([menu] + Preorder(kids))
            && Nodes(f) == Nodes(front) + {menu} + Nodes(kids) && menu !in Nodes(front) && Nodes(front) !! Nodes(kids)
            && p !in Nodes(f) && p !in Nodes(rest') && Nodes(f) !! Nodes(rest')
            && Count(rest') < Count(rest) && Nodes(rest') <= Nodes(rest)
  {
    var one := Node(menu, kids, Nil);
    assert Nodes(one) == {menu} + Nodes(kids) && Preorder(one) == [menu] + Preorder(kids);
    assert Count(one) == 1 + Count(kids);
    ConcatNodes(front, one);
    ConcatPreorder(front, one);
    OrderExtends(front, All(front, menu, kids), menu, kids, rest', rest, r);
  }

  method Adopt(p: Menu, menu: Menu, ghost up: Menu?, ghost front: Forest, ghost kids: Forest, ghost rest: Forest,
          ghost r: Forest)
    requires Prepared(p, menu, up, front, kids, rest, r)
    modifies menu`parent
    ensures SubLinks(p, menu.next, up, front, menu, kids, rest, r)
  {
    hide SameOrder, All;
    assert Siblings(kids, menu.list, menu, null) && Siblings(rest, menu.next, up, null);
    menu.parent := p;
  }

  // ---- Flattening, on nodes ----

  /** The loop over the children of `menu`, which become children of `p`. */
  method Reparent(menu: Menu, p: Menu, ghost kids: Forest)
    returns (last: Menu, ghost front: Forest, ghost below: Forest)
    requires Siblings(kids, menu.list, menu, null) && kids.Node? && menu !in Nodes(kids)
    modifies Nodes(kids)`parent
    ensures Taken(front, last, below, menu.list, p, null) && All(front, last, below) == kids
  {
    last := menu.list;
    front := Nil;
    ghost var rest := kids;
    while true
      invariant Siblings(front, menu.list, p, last) && Siblings(rest, last, menu, null) && rest.Node?
      invariant Nodes(front) !! Nodes(rest) && Concat(front, rest) == kids
      decreases rest
    {
      ConcatNodes(front, rest);
      assert Linked(rest.rest, last.next, menu, null);
      last.parent := p;
      below := rest.kids;
      if last.next == null {
        assert rest == Node(last, below, Nil);
        return;
      }
      Extends(front, menu.list, p, last, below);
      ConcatAssociates(front, Node(last, below, Nil), rest.rest);
      front := Concat(front, Node(last, below, Nil));
      rest := rest.rest;
      last := last.next;
    }
  }

  lemma {:induction false} ConcatOrder(kids: Forest, after: Forest)
    ensures SameOrder(Nil, Concat(kids, after), kids, after)
  {
    ConcatNodes(kids, after);
    ConcatPreorder(kids, after);
    assert [] + Preorder(Concat(kids, after)) == Preorder(Concat(kids, after));
  }

  /** The children of a node without a prompt move up behind it. */
  method Flatten(menu: Menu, p: Menu, ghost kids: Forest, ghost after: Forest)
    requires Siblings(kids, menu.list, menu, null) && kids.Node? && Siblings(after, menu.next, p, null)
    requires menu !in Nodes(kids) && menu !in Nodes(after) && Nodes(kids) !! Nodes(after)
    modifies menu`next, menu`list, Nodes(kids)`next, Nodes(kids)`parent
    ensures menu.list == null && Siblings(Concat(kids, after), menu.next, p, null)
  {
    assert allocated(Nodes(after));
    var last;
    ghost var front, below;
    last, front, below := Reparent(menu, p, kids);
    TakenAll(front, last, below, menu.list, p, null);
    MoveUp(menu, p, last, front, below, after);
  }

  method MoveUp(menu: Menu, p: Menu, last: Menu, ghost front: Forest, ghost below: Forest, ghost after: Forest)
    requires Taken(front, last, below, menu.list, p, null) && Siblings(after, menu.next, p, null)
    requires var kids := All(front, last, below);
             menu !in Nodes(kids) && menu !in Nodes(after) && Nodes(kids) !! Nodes(after)
    modifies menu`next, menu`list, last`next
    ensures menu.list == null && Siblings(Concat(All(front, last, below), after), menu.next, p, null)
  {
    TakenAll(front, last, below, menu.list, p, null);
    ghost var kids := All(front, last, below);
    last.next := menu.next;
    menu.next := menu.list;
    menu.list := null;
    assert Taken(front, last, below, menu.next, p, last.next);
    TakenAll(front, last, below, menu.next, p, last.next);
    hide Taken, All;
    ConcatLinked(kids, after, menu.next, p, last.next, null);
    ConcatDistinct(kids, after);
  }

  /** The last loop of `menu_finalize`. */
  method FlattenAll(p: Menu, ghost k: Forest) returns (ghost k': Forest)
    requires Siblings(k, p.list, p, null) && p !in Nodes(k)
    modifies Nodes(k)`next, Nodes(k)`parent, Nodes(k)`list
    ensures Siblings(k', p.list, p, null) && Rearranged(k', k) && k' == Flat(k)
  {
    var menu := p.list;
    k' := Nil;
    ghost var rest := k;
    while menu != null
      invariant Siblings(k', p.list, p, menu) && Siblings(rest, menu, p, null)
      invariant Nodes(k') !! Nodes(rest) && SameOrder(k', rest, Nil, k)
      invariant Flat(k) == Concat(k', Flat(rest))
      decreases Count(rest)
    {
      ghost var below, after := rest.kids, rest.rest;
      if menu.list != null && !menu.hasPrompt {
        assert allocated(Nodes(k'));
        Flatten(menu, p, rest.kids, rest.rest);
        below, after := Nil, Concat(rest.kids, rest.rest);
        ConcatOrder(rest.kids, rest.rest);
      }
      Extends(k', p.list, p, menu, below);
      OrderExtends(k', Concat(k', Node(menu, below, Nil)), menu, below, after, rest, k);
      ConcatAssociates(k', Node(menu, below, Nil), Flat(after));
      k' := Concat(k', Node(menu, below, Nil));
      rest := after;
      menu := menu.next;
    }
    AllDone(k', rest, k);
    ConcatNil(k');
  }

  lemma {:induction false} InitialNow(f: Forest, d: Snapshot)
    requires forall m :: m in Nodes(f) ==> Same(m, d)
    ensures Initial(f, d)
  {
    if f.Node? {
      InitialNow(f.kids, d);
      InitialNow(f.rest, d);
    }
  }

  /** The expressions now, and what they will become: there is always such a snapshot. */
  lemma {:induction false} Foresee(root: Menu, modules: Symbol, k: Forest) returns (d: Snapshot)
    requires Distinct(Node(root, k, Nil))
    ensures d.modules == modules && forall m :: m in Nodes(k) ==> Before(d, m) == Deps(m.dep, m.visible)
    ensures Has(root, d) && Initial(k, d) && Expected(k, root, d)
  {
    var before := map m | m in Nodes(k) :: Deps(m.dep, m.visible);
    var seen := Snapshot(before, map[], modules);
    d := Snapshot(before, FinalExprs(k, root.dep, seen)[root := Deps(root.dep, root.visible)], modules);
    InitialNow(k, d);
    ExprsExpected(k, root, seen, d);
  }

  /** `menu_finalize(&rootmenu)` and the walk of `conf_write`. The walk visits every node below the root once, in the
      order in which the nodes were read, which is also the order in which they were finalised. Each node has got the
      dependencies of what enclosed it as read, and the nodes have been arranged by these: the parent of each is the
      nearest node with a prompt that encloses it once the submenus are made. */
  method FinalizeAndWalk(root: Menu, modules: Symbol, ghost k: Forest, ghost d: Snapshot)
    returns (visited: seq<Menu>, ghost k': Forest, ghost log: seq<Menu>)
    requires Siblings(Node(root, k, Nil), root, null, null)
    requires d.modules == modules && Has(root, d) && Initial(k, d) && Expected(k, root, d)
    modifies Nodes(Node(root, k, Nil))
    ensures Siblings(k', root.list, root, null) && root.parent == null && root.next == null
    ensures visited == Preorder(k') == Preorder(k) && NoRepeats(visited)
    ensures log == [root] + Preorder(k)
    ensures k' == Arranged(root, k, Nil, d).kids && Prompted(k')
    ensures AllHave(Nodes(k), d) && Has(root, d) && Passed(k, root, d)
    ensures forall x :: x in Nodes(k) ==> x.parent == Nearest(Nest(root, k, d), root, x)
  {
    assert InitialKids(Nil, d);
    hide *;
    ghost var r', taken;
    k', r', taken, log := Finalize(root, modules, null, k, Nil, d);
    RootDone(root, k', r', taken, k);
    HavePassed(k, root, d);
    FinalParents(root, k, d);
    assert allocated(Nodes(k')) && allocated(Nodes(k));
    visited := Walk(root, k');
  }

  /** On the finished nodes: a node has gone below a symbol only where the test for a submenu says so. */
  lemma {:induction false} PairsBelong(root: Menu, k: Forest, d: Snapshot)
    requires AllHave(Nodes(k), d) && Has(root, d)
    ensures forall p, m :: (p, m) in Arranged(root, k, Nil, d).pairs ==> p.sym.Some? && Belongs(BaseOf(p), p, m)
  {
    ArrangedNodes(root, k, Nil, d);
    ArrangedGoes(root, k, Nil, d);
    assert Nodes(Nil) == {};
    hide Arranged, GoesBelow, Nodes;
    forall p, m | (p, m) in Arranged(root, k, Nil, d).pairs
      ensures p.sym.Some? && Belongs(BaseOf(p), p, m)
    {
      assert Has(p, d) && Has(m, d) && Goes(p, m, d);
    }
  }

  lemma {:induction false} RootDone(root: Menu, k': Forest, r': Forest, taken: Forest, k: Forest)
    requires Siblings(Node(root, k', r'), root, null, null) && SameOrder(k', r', k, Nil) && Nil == Concat(taken, r')
    ensures Siblings(k', root.list, root, null) && Distinct(k') && Linked(k', root.list, root, null)
    ensures root.parent == null && root.next == null && Preorder(k') == Preorder(k)
  {
    assert r' == Nil;
    assert Linked(Nil, root.next, null, null);
    assert Linked(k', root.list, root, null);
    assert Preorder(k') + [] == Preorder(k') && Preorder(k) + [] == Preorder(k);
  }
}
