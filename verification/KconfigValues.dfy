/**
 What holds of the values of a Kconfig table: selects, user values and implications are respected, and the
 values are an assignment of the kind the expression rewrites are proved for.
 */
module KconfigValues {
  import opened Options
  import opened KconfigExpr
  import opened KconfigSymbols
  import opened KconfigJoin
  import opened KconfigDups
  import opened KconfigTransform
  import opened KconfigSubmenu

  // ---- Selects, user values, implications ----

  lemma {:induction false} SwitchSolves(c: Config, rank: seq<nat>, s: nat)
    requires Ranked(c, rank) && s < |c.syms| && IsSwitch(c.syms[s].sym.stype) && c.syms[s].fixed.None?
    ensures Final(c, rank)(s) == Value("n", SwitchValue(c, c.syms[s], Final(c, rank)))
  {
    FinalSolvesAt(c, rank, s);
  }

  lemma {:induction false} PromoteRaises(t: SymbolType, v: Tri)
    ensures Promote(t, v) >= v && Promote(t, Promote(t, v)) == Promote(t, v)
    ensures t == Boolean ==> Promote(t, v) != MOD
  {
  }

  /** No symbol is below the value of the selects that point to it. */
  lemma {:induction false} SelectsHold(c: Config, rank: seq<nat>, s: nat)
    requires Ranked(c, rank) && s < |c.syms| && IsSwitch(c.syms[s].sym.stype) && c.syms[s].fixed.None?
    requires c.syms[s].revDep.Some?
    ensures Final(c, rank)(s).tri >= Value3(c, c.syms[s].revDep.value, Final(c, rank))
  {
    SwitchSolves(c, rank, s);
    PromoteRaises(TypeOf(c, c.syms[s].sym), Value3(c, c.syms[s].revDep.value, Final(c, rank)));
  }

  lemma {:induction false} VisibleIsTyped(c: Config, i: Info, a: Assignment)
    requires TypeOf(c, i.sym) == Boolean
    ensures Visible(c, i, a) != MOD && ReverseDep(c, i, i.revDep, a) != MOD
  {
  }

  /** A user value raises a symbol no further than its visibility, unless a select does. */
  lemma {:induction false} UserIsBounded(c: Config, rank: seq<nat>, s: nat)
    requires Ranked(c, rank) && s < |c.syms| && IsSwitch(c.syms[s].sym.stype) && c.syms[s].fixed.None?
    requires UserApplies(c, c.syms[s], Final(c, rank))
    ensures var (i, a) := (c.syms[s], Final(c, rank));
            a(s).tri <= Max(Visible(c, i, a), ReverseDep(c, i, i.revDep, a))
  {
    var i, a := c.syms[s], Final(c, rank);
    SwitchSolves(c, rank, s);
    if TypeOf(c, i.sym) == Boolean {
      VisibleIsTyped(c, i, a);
    }
  }

  /** The user value of an invisible symbol has no effect. */
  lemma {:induction false} HiddenIgnoresUser(c: Config, i: Info, user: Option<Value>, a: Assignment)
    requires Visible(c, i, a) == NO
    ensures Compute(c, i, a) == Compute(c, i.(user := user), a)
  {
    var j := i.(user := user);
    hide Value3, DepValue, PromptsValue;
    assert Visible(c, i, a) == Visible(c, j, a);
    assert DefaultValue(c, i, a) == DefaultValue(c, j, a) && DefaultSymbol(c, i, a) == DefaultSymbol(c, j, a);
    hide Visible, DefaultValue, DefaultSymbol;
  }

  /** An implication raises a symbol without a user value up to its direct dependencies. */
  lemma {:induction false} ImpliesHold(c: Config, rank: seq<nat>, s: nat)
    requires Ranked(c, rank) && s < |c.syms| && IsSwitch(c.syms[s].sym.stype) && c.syms[s].fixed.None?
    requires c.syms[s].implied.Some? && !UserApplies(c, c.syms[s], Final(c, rank))
    ensures var (i, a) := (c.syms[s], Final(c, rank));
            a(s).tri >= Min(Value3(c, i.implied.value, a), DepValue(c, i.dirDep, a))
  {
    SwitchSolves(c, rank, s);
  }

  // ---- Defaults of int, hex and string symbols ----

  /** The default that applies to a text symbol names the symbol `d`. */
  ghost predicate TakesDefault(c: Config, rank: seq<nat>, s: nat, d: nat)
    requires Ranked(c, rank)
  {
    && s < |c.syms| && c.syms[s].fixed.None? && c.syms[s].sym.stype in {Int, Hex, Str}
    && !UserApplies(c, c.syms[s], Final(c, rank))
    && DefaultSymbol(c, c.syms[s], Final(c, rank)) == Some(d)
  }

  /** What the default names takes part in the search for cycles, so it is a symbol of the table. */
  lemma {:induction false} DefaultIsInTable(c: Config, rank: seq<nat>, s: nat, d: nat)
    requires Ranked(c, rank) && TakesDefault(c, rank, s, d)
    ensures d < |c.syms| && Final(c, rank)(s) == Value(Final(c, rank)(d).text, NO)
  {
    var a := Final(c, rank);
    DefaultsAgree(c, c.syms[s], a, a);
    assert d in Edges(c.syms[s]);
    FinalSolvesAt(c, rank, s);
  }

  /** A text symbol whose default names a bool or tristate gets the text "n", whatever the value of that symbol. */
  lemma {:induction false} SwitchDefaultIsNo(c: Config, rank: seq<nat>, s: nat, d: nat)
    requires Ranked(c, rank) && TakesDefault(c, rank, s, d)
    requires d < |c.syms| && IsSwitch(c.syms[d].sym.stype) && c.syms[d].fixed.None?
    ensures Final(c, rank)(s).text == "n"
  {
    DefaultIsInTable(c, rank, s, d);
    SwitchSolves(c, rank, d);
  }

  /** The text is that of the symbol named if and only if that symbol is no bool or tristate, or is n. */
  lemma {:induction false} DefaultTextExactly(c: Config, rank: seq<nat>, s: nat, d: nat)
    requires Ranked(c, rank) && TakesDefault(c, rank, s, d)
    requires d < |c.syms| && c.syms[d].fixed.None?
    ensures Final(c, rank)(s).text == TextOf(c, c.syms[d].sym, Final(c, rank)(d)) <==>
            !IsSwitch(c.syms[d].sym.stype) || Final(c, rank)(d).tri == NO
  {
    DefaultIsInTable(c, rank, s, d);
    if IsSwitch(c.syms[d].sym.stype) {
      SwitchSolves(c, rank, d);
    }
  }

  // ---- The values as an assignment for the rewrites ----

  /** The value a bool or tristate symbol must have to equal a constant of this name. */
  function Denoted(c: Config, name: string): Option<Tri> {
    match c.number(Unknown, name)
    case Some(n) => if 0 <= n.value <= 2 then Some(n.value) else None
    case None =>
      if name == "y" then Some(YES) else if name == "m" then Some(MOD) else if name == "n" then Some(NO) else None
  }

  predicate InTable(c: Config, s: Symbol) { s.id < |c.syms| && c.syms[s.id].sym == s }

  predicate AllInTable(c: Config, e: Expr) {
    match e
    case Sym(s) => InTable(c, s)
    case Not(x) => AllInTable(c, x)
    case Bin(_, l, r) => AllInTable(c, l) && AllInTable(c, r)
    case Cmp(_, a, b) => InTable(c, a) && InTable(c, b)
  }

  function NameOf(i: Info): string { if i.fixed.Some? then i.fixed.value.text else i.name }

  /** The letters are the first symbols, constants are untyped and denote what their name says, and the values
      fixed beforehand fit their types. */
  ghost predicate Readable(c: Config) {
    && WellFormed(c)
    && c.syms[0].sym == SYMBOL_YES && c.syms[1].sym == SYMBOL_MOD && c.syms[2].sym == SYMBOL_NO
    && c.number(Unknown, "y").None? && c.number(Unknown, "m").None? && c.number(Unknown, "n").None?
    && (forall s :: 0 <= s < |c.syms| ==> ReadableSymbol(c, c.syms[s]))
  }

  ghost predicate ReadableSymbol(c: Config, i: Info) {
    && (i.sym.isConst ==>
          && i.sym.stype == Unknown
          && i.sym.denotes == Denoted(c, NameOf(i))
          && (c.number(Unknown, NameOf(i)).Some? ==> c.number(Unknown, NameOf(i)).value.Signed?))
    && (i.fixed.Some? && TypeOf(c, i.sym) == Boolean ==> i.fixed.value.tri != MOD)
  }

  /** The assignment of the table's values, made total on symbols that are not in the table. */
  ghost function Settled(c: Config, a: Assignment): Env {
    Env((s: Symbol) => SettledTri(c, a, s), (s: Symbol, t: Symbol) => SettledSign(c, a, s, t))
  }

  ghost function SettledTri(c: Config, a: Assignment, s: Symbol): Tri {
    if InTable(c, s) then a(s.id).tri else NO
  }

  ghost function SettledSign(c: Config, a: Assignment, s: Symbol, t: Symbol): int {
    if InTable(c, s) && InTable(c, t) then Compare(c, s, a(s.id), t, a(t.id))
    else if t.denotes == Some(SettledTri(c, a, s)) then 0 else 1
  }

  lemma {:induction false} BoolIsNotMod(c: Config, rank: seq<nat>, s: Symbol)
    requires Ranked(c, rank) && Readable(c) && InTable(c, s) && TypeOf(c, s) == Boolean
    ensures Final(c, rank)(s.id).tri != MOD
  {
    assert ReadableSymbol(c, c.syms[s.id]);
    if c.syms[s.id].fixed.Some? {
      FinalSolvesAt(c, rank, s.id);
    } else {
      SwitchSolves(c, rank, s.id);
    }
  }

  lemma {:induction false} ConstantText(c: Config, rank: seq<nat>, t: Symbol)
    requires Ranked(c, rank) && Readable(c) && InTable(c, t) && t.isConst
    ensures TextOf(c, t, Final(c, rank)(t.id)) == NameOf(c.syms[t.id])
    ensures t.stype == Unknown && t.denotes == Denoted(c, NameOf(c.syms[t.id]))
    ensures var n := c.number(Unknown, NameOf(c.syms[t.id])); n.Some? ==> n.value.Signed?
  {
    assert ReadableSymbol(c, c.syms[t.id]);
    FinalSolvesAt(c, rank, t.id);
  }

  /** Comparing a bool or tristate value with the text of a constant finds the value the constant denotes. */
  lemma {:induction false} CompareFindsDenoted(c: Config, s: Symbol, v: Value, t: Symbol, w: Value)
    requires IsSwitch(s.stype) && (c.modules == NO ==> v.tri != MOD) && t.stype == Unknown
    requires c.number(Unknown, w.text).Some? ==> c.number(Unknown, w.text).value.Signed?
    ensures Compare(c, s, v, t, w) == 0 <==> Denoted(c, w.text) == Some(v.tri)
  {
    assert LetterNumber(TextOf(c, s, v)) == v.tri;
  }

  lemma {:induction false} LettersDiffer(c: Config, rank: seq<nat>, s: Symbol, t: Symbol)
    requires Ranked(c, rank) && Readable(c) && IsLetter(s) && IsLetter(t)
    ensures SettledSign(c, Final(c, rank), s, t) == 0 <==> s == t
  {
    FinalSolvesAt(c, rank, s.id);
    FinalSolvesAt(c, rank, t.id);
  }

  lemma {:induction false} SettledConstants(c: Config, rank: seq<nat>, s: Symbol, t: Symbol)
    requires Ranked(c, rank) && Readable(c) && IsSwitch(s.stype) && t.isConst
    ensures SettledSign(c, Final(c, rank), s, t) == 0 <==> t.denotes == Some(SettledTri(c, Final(c, rank), s))
  {
    if InTable(c, s) && InTable(c, t) {
      ConstantText(c, rank, t);
      if c.modules == NO {
        BoolIsNotMod(c, rank, s);
      }
      CompareFindsDenoted(c, s, Final(c, rank)(s.id), t, Final(c, rank)(t.id));
    }
  }

  lemma {:induction false} SettledLetters(c: Config, rank: seq<nat>)
    requires Ranked(c, rank) && Readable(c)
    ensures var a := Final(c, rank);
            SettledTri(c, a, SYMBOL_YES) == YES && SettledTri(c, a, SYMBOL_MOD) == MOD
            && SettledTri(c, a, SYMBOL_NO) == NO
  {
    FinalSolvesAt(c, rank, 0);
    FinalSolvesAt(c, rank, 1);
    FinalSolvesAt(c, rank, 2);
  }

  /** The values of a table are an assignment of the kind the rewrites of expressions are proved for. */
  lemma {:induction false} SettledIsWellTyped(c: Config, rank: seq<nat>)
    requires Ranked(c, rank) && Readable(c)
    ensures WellTyped(Settled(c, Final(c, rank)))
  {
    hide Ranked, Readable, Final, SettledTri, SettledSign;
    var a := Final(c, rank);
    SettledLetters(c, rank);
    forall s: Symbol | s.stype == Boolean
      ensures SettledTri(c, a, s) != MOD
    {
      SettledBool(c, rank, s);
    }
    forall s: Symbol, t: Symbol | IsSwitch(s.stype) && t.isConst
      ensures SettledSign(c, a, s, t) == 0 <==> t.denotes == Some(SettledTri(c, a, s))
    {
      SettledConstants(c, rank, s, t);
    }
    forall s: Symbol, t: Symbol | IsLetter(s) && IsLetter(t)
      ensures SettledSign(c, a, s, t) == 0 <==> s == t
    {
      LettersDiffer(c, rank, s, t);
    }
  }

  lemma {:induction false} SettledBool(c: Config, rank: seq<nat>, s: Symbol)
    requires Ranked(c, rank) && Readable(c) && s.stype == Boolean
    ensures SettledTri(c, Final(c, rank), s) != MOD
  {
    if InTable(c, s) {
      BoolIsNotMod(c, rank, s);
    }
  }

  lemma {:induction false} SettledValue(c: Config, e: Expr, a: Assignment)
    requires AllInTable(c, e)
    ensures Eval(e, Settled(c, a)) == Value3(c, e, a)
  {
    match e
    case Sym(_) =>
    case Not(x) => SettledValue(c, x, a);
    case Bin(_, l, r) => SettledValue(c, l, a); SettledValue(c, r, a);
    case Cmp(_, _, _) =>
  }

  /** Simplifying an expression of the table does not change its value. */
  lemma {:induction false} SimplifyKeepsTableValue(c: Config, rank: seq<nat>, e: Expr)
    requires Ranked(c, rank) && Readable(c) && AllInTable(c, e) && CleanConstants(e, Settled(c, Final(c, rank)))
    ensures Eval(EliminateDups(Transform(e)), Settled(c, Final(c, rank))) == Value3(c, e, Final(c, rank))
  {
    hide Ranked, Readable, Final;
    SettledIsWellTyped(c, rank);
    SettledValue(c, e, Final(c, rank));
    TransformKeepsValue(e, Settled(c, Final(c, rank)));
    TransformClean(e, Settled(c, Final(c, rank)));
    EliminateDupsKeepsValue(Transform(e), Settled(c, Final(c, rank)));
  }

  lemma {:induction false} TransBoolInTable(c: Config, e: Expr)
    requires AllInTable(c, e)
    ensures AllInTable(c, TransBool(e))
  {
    match e
    case Bin(_, l, r) => TransBoolInTable(c, l); TransBoolInTable(c, r);
    case Not(x) => TransBoolInTable(c, x);
    case _ =>
  }

  /** The properties `qs` are `ps` with the conditions of the prompts shortened. */
  ghost predicate ShortPrompts(ps: seq<Property>, qs: seq<Property>) {
    |ps| == |qs| && forall k :: 0 <= k < |ps| ==> ShortPrompt(ps[k], qs[k])
  }

  predicate ShortPrompt(p: Property, q: Property) {
    p.kind == q.kind
    && (p.kind == Prompt ==>
          q.visible == if p.visible.None? then None else Some(TransBool(p.visible.value)))
  }

  /** Negation stands on symbols, and all symbols are in the table. */
  predicate GoodPrompt(c: Config, p: Property) {
    p.kind == Prompt && p.visible.Some? ==> AllInTable(c, p.visible.value) && NegatesSymbols(p.visible.value)
  }

  lemma {:induction false} ShortPromptsValue(c: Config, rank: seq<nat>, ps: seq<Property>, qs: seq<Property>)
    requires Ranked(c, rank) && Readable(c) && ShortPrompts(ps, qs) && forall p :: p in ps ==> GoodPrompt(c, p)
    ensures PromptsValue(c, qs, Final(c, rank)) == NO <==> PromptsValue(c, ps, Final(c, rank)) == NO
  {
    hide Ranked, Readable, Final;
    if ps != [] {
      var a := Final(c, rank);
      var (p, q) := (ps[0], qs[0]);
      assert ShortPrompt(p, q) && GoodPrompt(c, p);
      ShortPromptsValue(c, rank, ps[1..], qs[1..]);
      if p.kind == Prompt && p.visible.Some? {
        SettledIsWellTyped(c, rank);
        TransBoolInTable(c, p.visible.value);
        SettledValue(c, p.visible.value, a);
        SettledValue(c, q.visible.value, a);
        TransBoolKeepsNonNo(p.visible.value, Settled(c, a));
      }
      hide TransBool, AllInTable, NegatesSymbols;
    }
  }

  /** A symbol that is not a tristate is exactly as visible with the shortened conditions as before. */
  lemma {:induction false} TransBoolKeepsVisibility(c: Config, rank: seq<nat>, i: Info, j: Info)
    requires Ranked(c, rank) && Readable(c) && i.sym == j.sym && i.sym.stype != Tristate
    requires ShortPrompts(i.props, j.props) && forall p :: p in i.props ==> GoodPrompt(c, p)
    ensures Visible(c, j, Final(c, rank)) == Visible(c, i, Final(c, rank))
  {
    ShortPromptsValue(c, rank, i.props, j.props);
    hide Ranked, Readable, Final, ShortPrompts;
  }

  lemma {:induction false} DepIsSettled(c: Config, d: Option<Expr>, a: Assignment)
    requires d.Some? ==> AllInTable(c, d.value)
    ensures EvalDep(d, Settled(c, a)) == DepValue(c, d, a)
  {
    if d.Some? {
      SettledValue(c, d.value, a);
    }
  }

  /** In the values of the table, an entry placed in a submenu is not n only where what the menu stands for,
      its symbol or its dependency, is not n. If it is placed there because it depends on the symbol, that is so for all
      expressions; otherwise no symbol under a negation may be m, none used as a value a number or text, and no tristate
      equal to a numeric constant it is tested for, in the values calculated. */
  lemma {:induction false} SubmenuIsSound(c: Config, rank: seq<nat>, base: Option<Expr>, dep: Option<Expr>, s: Symbol)
    requires Ranked(c, rank) && Readable(c) && InTable(c, s) && IsSwitch(s.stype)
    requires (base.Some? ==> AllInTable(c, base.value)) && (dep.Some? ==> AllInTable(c, dep.value))
    requires GoesBelow(base, dep, s) && DepValue(c, dep, Final(c, rank)) != NO
    requires DependsSymbol(dep.value, s)
             || (Sane(base, Settled(c, Final(c, rank))) && Sane(dep, Settled(c, Final(c, rank))))
    ensures Final(c, rank)(s.id).tri != NO || DepValue(c, base, Final(c, rank)) != NO
  {
    hide Ranked, Readable, Final, GoesBelow, Sane;
    var a := Final(c, rank);
    SettledIsWellTyped(c, rank);
    DepIsSettled(c, base, a);
    DepIsSettled(c, dep, a);
    GoesBelowSound(base, dep, s, Settled(c, a));
  }
}
