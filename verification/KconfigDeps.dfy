/**
 How `menu_finalize` passes dependencies down the menus: predicates on the nodes, and what the final
 dependency of a node means.
 */
module KconfigDeps {
  import opened Options
  import opened KconfigExpr
  import opened KconfigJoin
  import opened KconfigTransform
  import opened KconfigSubmenu
  import opened KconfigForest

  datatype Deps = Deps(dep: Option<Expr>, visible: Option<Expr>)

  /** The expressions of the nodes before `menu_finalize` and after it, and the modules symbol. */
  datatype Snapshot = Snapshot(before: map<Menu, Deps>, after: map<Menu, Deps>, modules: Symbol)

  ghost function Before(d: Snapshot, m: Menu): Deps { if m in d.before then d.before[m] else Deps(None, None) }

  ghost function After(d: Snapshot, m: Menu): Deps { if m in d.after then d.after[m] else Deps(None, None) }

  /** The condition a prompt gets: passed down and, for a symbol that is not a tristate, made two-valued. */
  function Condition(m: Menu, dep: Option<Expr>, visible: Option<Expr>, modules: Symbol): Option<Expr> {
    var c := Propagate(dep, visible, modules);
    if c.Some? && m.sym.Some? && m.sym.value.stype != Tristate then Some(TransBool(c.value)) else c
  }

  /** The node has its expressions from before. */
  ghost predicate Same(m: Menu, d: Snapshot)
    reads m`dep, m`visible
  {
    m.dep == Before(d, m).dep && m.visible == Before(d, m).visible
  }

  /** The node has got the dependency of its parent. */
  ghost predicate Got(m: Menu, up: Menu, d: Snapshot)
    reads m`dep, m`visible, up`dep
  {
    && m.dep == Propagate(up.dep, Before(d, m).dep, d.modules)
    && m.visible == if m.hasPrompt then Condition(m, m.dep, Before(d, m).visible, d.modules) else Before(d, m).visible
  }

  ghost predicate Initial(f: Forest, d: Snapshot)
    reads Nodes(f)`dep, Nodes(f)`visible
  {
    f.Node? ==> Same(f.m, d) && Initial(f.kids, d) && Initial(f.rest, d)
  }

  /** What `Got` gives a node, on values. */
  function Passes(m: Menu, dep: Option<Expr>, own: Deps, modules: Symbol): Deps {
    var all := Propagate(dep, own.dep, modules);
    Deps(all, if m.hasPrompt then Condition(m, all, own.visible, modules) else own.visible)
  }

  /** The snapshot has the final expressions for everything below `up`. */
  ghost predicate Expected(f: Forest, up: Menu, d: Snapshot) {
    f.Node? ==>
      && After(d, f.m) == Passes(f.m, After(d, up).dep, Before(d, f.m), d.modules)
      && Expected(f.kids, f.m, d) && Expected(f.rest, up, d)
  }

  /** The node has its final expressions. */
  ghost predicate Has(m: Menu, d: Snapshot)
    reads m`dep, m`visible
  {
    m.dep == After(d, m).dep && m.visible == After(d, m).visible
  }

  /** The siblings have their final expressions, and all below them is as before. */
  ghost predicate InitialKids(f: Forest, d: Snapshot)
    reads Nodes(f)`dep, Nodes(f)`visible
  {
    f.Node? ==> Has(f.m, d) && Initial(f.kids, d) && Expected(f.kids, f.m, d) && InitialKids(f.rest, d)
  }

  /** Everything below `up` has got the dependency of what encloses it. */
  ghost predicate Passed(f: Forest, up: Menu, d: Snapshot)
    reads Nodes(f)`dep, Nodes(f)`visible, up`dep
  {
    f.Node? ==>
      && Got(f.m, up, d)
      && Passed(f.kids, f.m, d) && Passed(f.rest, up, d)
  }

  ghost predicate AllHave(s: set<Menu>, d: Snapshot)
    reads s`dep, s`visible
  {
    forall m :: m in s ==> Has(m, d)
  }

  /** When all nodes have their final expressions, everything has been passed down. */
  lemma {:induction false} HavePassed(f: Forest, up: Menu, d: Snapshot)
    requires AllHave(Nodes(f), d) && Expected(f, up, d) && Has(up, d)
    ensures Passed(f, up, d)
  {
    if f.Node? {
      HavePassed(f.kids, f.m, d);
      HavePassed(f.rest, up, d);
      hide Propagate, Condition;
    }
  }

  // ---- The final expressions exist ----

  ghost function FinalExprs(f: Forest, dep: Option<Expr>, d: Snapshot): (e: map<Menu, Deps>)
    ensures e.Keys == Nodes(f)
  {
    match f
    case Nil => map[]
    case Node(m, k, r) =>
      var own := Passes(m, dep, Before(d, m), d.modules);
      FinalExprs(r, dep, d) + FinalExprs(k, own.dep, d) + map[m := own]
  }

  lemma {:induction false} ExprsOfParts(f: Forest, dep: Option<Expr>, d: Snapshot)
    requires f.Node? && Distinct(f)
    ensures var (e, own) := (FinalExprs(f, dep, d), Passes(f.m, dep, Before(d, f.m), d.modules));
            && e[f.m] == own
            && (forall m :: m in Nodes(f.kids) ==> e[m] == FinalExprs(f.kids, own.dep, d)[m])
            && (forall m :: m in Nodes(f.rest) ==> e[m] == FinalExprs(f.rest, dep, d)[m])
  {
    hide Passes;
  }

  /** A snapshot that agrees with the computed expressions on the nodes has the final expressions. */
  lemma {:induction false} ExprsExpected(f: Forest, up: Menu, d: Snapshot, e: Snapshot)
    requires Distinct(f) && e.before == d.before && e.modules == d.modules
    requires forall m :: m in Nodes(f) ==> m in e.after && e.after[m] == FinalExprs(f, After(e, up).dep, d)[m]
    ensures Expected(f, up, e)
  {
    if f.Node? {
      ExprsOfParts(f, After(e, up).dep, d);
      hide Passes, FinalExprs;
      ExprsExpected(f.kids, f.m, d, e);
      ExprsExpected(f.rest, up, d, e);
    }
  }

  // ---- What the final dependencies mean ----

  /** The values of the dependencies as written, from `m` outwards up to the siblings `f`; `above` for what encloses
      them. n for a node that is not in `f`. */
  ghost function Required(f: Forest, x: Menu, d: Snapshot, env: Env, above: Tri): Tri {
    match f
    case Nil => NO
    case Node(m, k, r) =>
      var own := Min(above, EvalDep(Before(d, m).dep, GuardMod(d.modules, env)));
      if x == m then own
      else if x in Nodes(k) then Required(k, x, d, env, own)
      else Required(r, x, d, env, above)
  }

  ghost predicate CleanDep(d: Option<Expr>, env: Env) { d.Some? ==> CleanConstants(d.value, env) }

  /** After `menu_finalize` the dependency of a node has, in every assignment, the value of all dependencies written
      on it and on the menus that enclose it, with m read as m && MODULES. */
  lemma {:induction false} PassedValue(f: Forest, x: Menu, up: Menu, d: Snapshot, env: Env)
    requires Passed(f, up, d) && x in Nodes(f) && Distinct(f) && WellTyped(env)
    requires CleanDep(up.dep, env) && forall m :: m in Nodes(f) ==> CleanDep(Before(d, m).dep, env)
    ensures EvalDep(x.dep, env) == Required(f, x, d, env, EvalDep(up.dep, env))
    decreases f
  {
    PropagateValue(up.dep, Before(d, f.m).dep, d.modules, env);
    hide Propagate;
    if x in Nodes(f.kids) {
      PassedValue(f.kids, x, f.m, d, env);
    } else if x != f.m {
      PassedValue(f.rest, x, up, d, env);
    }
  }

  /** The condition of a prompt after `menu_finalize`: for a tristate or a node without a symbol the lesser of the final
      dependency and of the condition as read; for other symbols it is n exactly when one of these is, and compares no
      tristate with n. A node without a prompt keeps what it had. */
  lemma {:induction false} PassedPrompt(m: Menu, up: Menu, d: Snapshot, env: Env)
    requires Got(m, up, d) && WellTyped(env)
    requires CleanDep(m.dep, env) && CleanDep(Before(d, m).visible, env)
    requires m.dep.Some? ==> NegatesSymbols(m.dep.value)
    ensures !m.hasPrompt ==> m.visible == Before(d, m).visible
    ensures m.hasPrompt ==>
              var (dep, own) := (EvalDep(m.dep, env), EvalDep(Before(d, m).visible, GuardMod(d.modules, env)));
              if m.sym.Some? && m.sym.value.stype != Tristate
              then EvalDep(m.visible, env) == NO <==> dep == NO || own == NO
              else EvalDep(m.visible, env) == Min(dep, own)
    ensures m.hasPrompt && m.sym.Some? && m.sym.value.stype != Tristate && m.visible.Some? ==>
              Shortened(m.visible.value)
  {
    var all := Propagate(m.dep, Before(d, m).visible, d.modules);
    if all.Some? {
      TransBoolShortens(all.value);
    }
    PropagateValue(m.dep, Before(d, m).visible, d.modules, env);
    PromptConditionNonNo(m.dep, Before(d, m).visible, d.modules, env);
    hide Propagate, TransBool;
  }

  /** Negation stands on symbols in all final dependencies, if it does in the root's. */
  lemma {:induction false} PassedNegates(f: Forest, up: Menu, d: Snapshot)
    requires Passed(f, up, d) && (up.dep.Some? ==> NegatesSymbols(up.dep.value))
    ensures forall m :: m in Nodes(f) ==> m.dep.Some? ==> NegatesSymbols(m.dep.value)
  {
    if f.Node? {
      PropagateNegatesSymbols(up.dep, Before(d, f.m).dep, d.modules);
      PassedNegates(f.kids, f.m, d);
      PassedNegates(f.rest, up, d);
      hide Propagate, NegatesSymbols;
    }
  }
}
