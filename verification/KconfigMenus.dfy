/**
 Menus and values together: what the automatic submenus of the finished tree mean for the calculated values.
 */
module KconfigMenus {
  import opened Options
  import opened KconfigExpr
  import opened KconfigDups
  import opened KconfigSame
  import opened KconfigSubmenu
  import opened KconfigTaken
  import opened KconfigSymbols
  import opened KconfigValues
  import opened KconfigForest
  import opened KconfigDeps
  import opened KconfigArrange
  import opened KconfigPlace
  import opened KconfigFinalize

  /** What decides whether an item is shown. */
  function ItemOf(m: Menu): Option<Expr>
    reads m`dep, m`visible
  {
    if m.hasPrompt then m.visible else m.dep
  }

  /** Wherever `menu_finalize` has put an item below a switch, the item is n in the calculated values unless the switch
      or its own prompt is not. */
  lemma {:induction false} SubmenusAreSound(c: Config, rank: seq<nat>, root: Menu, k: Forest, d: Snapshot,
          p: Menu, m: Menu)
    requires AllHave(Nodes(k), d) && Has(root, d) && (p, m) in Arranged(root, k, Nil, d).pairs
    requires Ranked(c, rank) && Readable(c)
    requires p.sym.Some? ==> InTable(c, p.sym.value) && IsSwitch(p.sym.value.stype)
    requires BaseOf(p).Some? ==> AllInTable(c, BaseOf(p).value)
    requires ItemOf(m).Some? ==> AllInTable(c, ItemOf(m).value)
    requires p.sym.Some? && ItemOf(m).Some? ==>
               DependsSymbol(ItemOf(m).value, p.sym.value)
               || (Sane(BaseOf(p), Settled(c, Final(c, rank))) && Sane(ItemOf(m), Settled(c, Final(c, rank))))
    requires DepValue(c, ItemOf(m), Final(c, rank)) != NO
    ensures p.sym.Some?
    ensures Final(c, rank)(p.sym.value.id).tri != NO || DepValue(c, BaseOf(p), Final(c, rank)) != NO
  {
    PairsBelong(root, k, d);
    SubmenuIsSound(c, rank, BaseOf(p), ItemOf(m), p.sym.value);
  }

  /** Nothing is missed: what follows a symbol that was read with nothing below it, once the submenus are made, has no
      operand that demands the symbol; and if it mentions the symbol at all, it has not all operands of the prompt's
      condition either. */
  lemma {:induction false} NothingIsMissed(root: Menu, k: Forest, d: Snapshot, x: Menu)
    requires AllHave(Nodes(k), d) && Distinct(Node(root, k, Nil))
    requires x in Nodes(k) && KidsOf(k, x) == Nil && x.sym.Some? && NextIn(Nest(root, k, d), x) != null
    ensures NextIn(Nest(root, k, d), x) in Nodes(k)
    ensures var (item, s) := (ItemOf(NextIn(Nest(root, k, d), x)), x.sym.value);
            item.Some? ==>
              && (forall p: Path :: !DemandsAt(item.value, p, s))
              && (NoModTest(item.value) && (BaseOf(x).Some? ==> NoModTest(BaseOf(x).value))
                  && ContainsSymbol(item.value, s) ==>
                    var (form, base) := (NonNoForm(item), NonNoForm(BaseOf(x)));
                    base != Sym(SYMBOL_YES) && !(IsGate(And, form) && Operands(And, base) <= Operands(And, form)))
  {
    NestIs(root, k, d);
    NextIsNode(Nest(root, k, d), x);
    var y := NextIn(Nest(root, k, d), x);
    assert InPlace(root, k, d, x) && Has(x, d) && Has(y, d);
    assert !GoesBelow(BaseOf(x), ItemOf(y), x.sym.value);
    hide Nest, GoesBelow, NonNoForm, Operands, InPlace;
    if ItemOf(y).Some? {
      Refused(BaseOf(x), ItemOf(y).value, x.sym.value);
    }
  }

  lemma {:induction false} Refused(base: Option<Expr>, dep: Expr, s: Symbol)
    requires !GoesBelow(base, Some(dep), s)
    ensures forall p: Path :: !DemandsAt(dep, p, s)
    ensures NoModTest(dep) && (base.Some? ==> NoModTest(base.value)) && ContainsSymbol(dep, s) ==>
              var (x, y) := (NonNoForm(Some(dep)), NonNoForm(base));
              y != Sym(SYMBOL_YES) && !(IsGate(And, x) && Operands(And, y) <= Operands(And, x))
  {
    forall p: Path
      ensures !DemandsAt(dep, p, s)
    {
      if DemandsAt(dep, p, s) {
        DemandIsTaken(base, dep, s, p);
      }
    }
    if NoModTest(dep) && (base.Some? ==> NoModTest(base.value)) {
      GoesBelowExactly(base, Some(dep), s);
    }
  }

  lemma {:induction false} NextIsNode(f: Forest, x: Menu)
    ensures NextIn(f, x) != null ==> NextIn(f, x) in Nodes(f)
  {
    if f.Node? && x != f.m {
      if x in Nodes(f.kids) {
        NextIsNode(f.kids, x);
      } else {
        NextIsNode(f.rest, x);
      }
    }
  }
}
