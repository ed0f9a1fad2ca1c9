/**
 `sym_calc_value`: values are calculated on demand and remembered in the symbols. Called on any symbols in any
 order, it gives each the value of the recursive definition.
 */
module KconfigEvaluate {
  import opened Options
  import opened KconfigExpr
  import opened KconfigSymbols

  /** The fields of a symbol that evaluation and the dependency check update. */
  class Entry {
    var check: bool
    var checked: bool
    var valid: bool
    var write: bool
    var curr: Value
    var visible: Tri
    var dirDep: Tri
    var revDep: Tri
    var implied: Tri

    constructor (fixed: Option<Value>)
      ensures valid == fixed.Some? && curr == (if fixed.Some? then fixed.value else NOTHING)
      ensures !check && !checked
    {
      check, checked := false, false;
      valid, write := fixed.Some?, false;
      curr := if fixed.Some? then fixed.value else NOTHING;
      visible, dirDep, revDep, implied := NO, NO, NO, NO;
    }

    ghost function Stored(): Outcome
      reads this
    {
      Outcome(curr, visible, dirDep, revDep, implied, write)
    }
  }

  class Table {
    const config: Config
    const entries: seq<Entry>
    /** A ranking that shows the dependencies have no cycle. */
    ghost const rank: seq<nat>

    constructor (c: Config, es: seq<Entry>, ghost r: seq<nat>)
      requires Ranked(c, r) && |es| == |c.syms|
      ensures config == c && entries == es && rank == r
    {
      config, entries, rank := c, es, r;
    }

    ghost predicate Shape() {
      && Ranked(config, rank)
      && |entries| == |config.syms| == |rank|
      && forall i, j :: 0 <= i < j < |entries| ==> entries[i] != entries[j]
    }

    ghost function Expected(s: nat): Outcome
      requires Shape() && s < |entries|
    {
      Compute(config, config.syms[s], Final(config, rank))
    }

    /** Entry `s` holds what the recursive definition gives. */
    ghost predicate Right(s: nat)
      requires Shape() && s < |entries|
      reads entries[s]
    {
      && entries[s].curr == Spec(config, rank, s)
      && (config.syms[s].fixed.None? && config.syms[s].sym.stype != Unknown ==> entries[s].Stored() == Expected(s))
    }

    /** Every valid entry is right, except those being calculated; letters and the modules symbol are valid. */
    ghost predicate Sound(busy: set<nat>)
      requires Shape()
      reads entries
    {
      && (forall i :: 0 <= i < |entries| && entries[i].valid && i !in busy ==> Right(i))
      && (forall i :: 0 <= i < |entries| && config.syms[i].fixed.Some? ==> entries[i].valid)
    }

    /** Everything being calculated stays as it is, and nothing becomes invalid. */
    twostate predicate Keeps(busy: set<nat>)
      requires Shape()
      reads entries
    {
      && (forall i :: 0 <= i < |entries| && i in busy ==> entries[i].Stored() == old(entries[i].Stored()))
      && (forall i :: 0 <= i < |entries| && old(entries[i].valid) ==> entries[i].valid)
    }

    /** All symbols being calculated rank at least `k`. */
    ghost predicate Above(busy: set<nat>, k: nat)
      requires Shape()
    {
      forall b :: b in busy ==> b < |entries| && rank[b] >= k
    }

    ghost predicate Below(ids: set<nat>, k: nat)
      requires Shape()
    {
      forall d :: d in ids ==> d < |entries| && rank[d] < k
    }

    /** `expr_calc_value`. */
    method CalcExpr(e: Expr, ghost k: nat, ghost busy: set<nat>) returns (v: Tri)
      requires Shape() && Sound(busy) && Above(busy, k) && Below(Uses(e), k)
      modifies entries
      ensures Sound(busy) && Keeps(busy)
      ensures v == Value3(config, e, Final(config, rank))
      decreases k, 0, e
    {
      match e {
        case Sym(s) =>
          CalcValue(s.id, busy);
          v := entries[s.id].curr.tri;
        case Not(x) =>
          var w := CalcExpr(x, k, busy);
          v := 2 - w;
        case Bin(op, l, r) =>
          var x := CalcExpr(l, k, busy);
          var y := CalcExpr(r, k, busy);
          v := Apply(op, x, y);
        case Cmp(rel, a, b) =>
          assert a.id in Uses(e) && b.id in Uses(e);
          CalcValue(a.id, busy);
          CalcValue(b.id, busy);
          v := OfBool(Holds(rel, Compare(config, a, entries[a.id].curr, b, entries[b.id].curr)));
      }
    }

    /** An optional expression; `absent` without one. */
    method CalcDep(d: Option<Expr>, absent: Tri, ghost k: nat, ghost busy: set<nat>) returns (v: Tri)
      requires Shape() && Sound(busy) && Above(busy, k) && Below(UsesOf(d), k)
      modifies entries
      ensures Sound(busy) && Keeps(busy)
      ensures v == if d.None? then absent else Value3(config, d.value, Final(config, rank))
      decreases k, 1
    {
      v := absent;
      if d.Some? {
        v := CalcExpr(d.value, k, busy);
      }
    }

    ghost predicate InProgress(s: nat, busy: set<nat>)
      requires Shape()
      reads entries
    {
      && s < |entries| && s in busy && Above(busy, rank[s]) && Sound(busy)
      && config.syms[s].fixed.None? && config.syms[s].sym.stype != Unknown && entries[s].valid
    }

    lemma {:induction false} EdgesBelow(s: nat)
      requires Shape() && s < |entries|
      ensures var i := config.syms[s];
              && Below(UsesOf(i.dirDep), rank[s]) && Below(UsesOf(i.revDep), rank[s])
              && Below(UsesOf(i.implied), rank[s]) && Below(PropsUse(i.props), rank[s])
    {
    }

    lemma {:induction false} PropBelow(s: nat, k: nat)
      requires Shape() && s < |entries| && k < |config.syms[s].props|
      ensures Below(PropUses(config.syms[s].props[k]), rank[s])
    {
      EdgesBelow(s);
      PropsUseContains(config.syms[s].props, k);
    }

    lemma {:induction false} PropExprsBelow(s: nat, k: nat)
      requires Shape() && s < |entries| && k < |config.syms[s].props|
      ensures var p := config.syms[s].props[k];
              && (p.kind == Prompt || p.kind == Default ==> Below(UsesOf(p.visible), rank[s]))
              && (p.kind == Default ==> Below(UsesOf(p.expr), rank[s]))
    {
      PropBelow(s, k);
    }

    /** The largest visibility of the prompts of `s`. */
    method CalcPrompts(s: nat, ghost busy: set<nat>) returns (v: Tri)
      requires Shape() && InProgress(s, busy)
      modifies entries
      ensures Sound(busy) && Keeps(busy)
      ensures v == PromptsValue(config, config.syms[s].props, Final(config, rank))
      decreases rank[s], 2
    {
      var ps := config.syms[s].props;
      ghost var a := Final(config, rank);
      v := NO;
      var k := 0;
      while k < |ps|
        invariant 0 <= k <= |ps|
        invariant Sound(busy) && Keeps(busy)
        invariant PromptsValue(config, ps, a) == Max(v, PromptsValue(config, ps[k..], a))
      {
        assert ps[k..][0] == ps[k] && ps[k..][1..] == ps[k + 1..];
        if ps[k].kind == Prompt {
          PropExprsBelow(s, k);
          var tri := CalcDep(ps[k].visible, YES, rank[s], busy);
          v := Max(v, tri);
        }
        k := k + 1;
      }
    }

    /** The index of the default that applies (`sym_get_default_prop`); the number of properties if none does. */
    method GetDefaultProp(s: nat, ghost busy: set<nat>) returns (k: nat, visible: Tri)
      requires Shape() && InProgress(s, busy)
      modifies entries
      ensures Sound(busy) && Keeps(busy)
      ensures k == FirstDefault(config, config.syms[s].props, 0, Final(config, rank)) <= |config.syms[s].props|
      ensures k < |config.syms[s].props| ==>
                visible == DepValue(config, config.syms[s].props[k].visible, Final(config, rank))
      decreases rank[s], 2
    {
      hide Right, Ranked, Above, Sound;
      var ps := config.syms[s].props;
      ghost var a := Final(config, rank);
      visible := NO;
      k := 0;
      while k < |ps|
        invariant 0 <= k <= |ps|
        invariant Sound(busy) && Keeps(busy)
        invariant FirstDefault(config, ps, 0, a) == FirstDefault(config, ps, k, a)
      {
        if ps[k].kind == Default {
          PropExprsBelow(s, k);
          visible := CalcDep(ps[k].visible, YES, rank[s], busy);
          if visible != NO {
            return;
          }
        }
        k := k + 1;
      }
    }

    method StoreVisible(e: Entry, tri: Tri, ghost s: nat, ghost busy: set<nat>)
      requires Shape() && InProgress(s, busy) && e == entries[s]
      modifies e`visible
      ensures InProgress(s, busy) && Keeps(busy - {s})
      ensures e.Stored() == old(e.Stored()).(visible := tri)
    {
      hide Right, Ranked, Above;
      if e.visible != tri {
        e.visible := tri;
      }
    }

    method StoreDirDep(e: Entry, tri: Tri, ghost s: nat, ghost busy: set<nat>)
      requires Shape() && InProgress(s, busy) && e == entries[s]
      modifies e`dirDep
      ensures InProgress(s, busy) && Keeps(busy - {s})
      ensures e.Stored() == old(e.Stored()).(dirDep := tri)
    {
      hide Right, Ranked, Above;
      if e.dirDep != tri {
        e.dirDep := tri;
      }
    }

    method StoreRevDep(e: Entry, tri: Tri, ghost s: nat, ghost busy: set<nat>)
      requires Shape() && InProgress(s, busy) && e == entries[s]
      modifies e`revDep
      ensures InProgress(s, busy) && Keeps(busy - {s})
      ensures e.Stored() == old(e.Stored()).(revDep := tri)
    {
      hide Right, Ranked, Above;
      if e.revDep != tri {
        e.revDep := tri;
      }
    }

    method StoreImplied(e: Entry, tri: Tri, ghost s: nat, ghost busy: set<nat>)
      requires Shape() && InProgress(s, busy) && e == entries[s]
      modifies e`implied
      ensures InProgress(s, busy) && Keeps(busy - {s})
      ensures e.Stored() == old(e.Stored()).(implied := tri)
    {
      hide Right, Ranked, Above;
      if e.implied != tri {
        e.implied := tri;
      }
    }

    method StoreWrite(e: Entry, x: bool, ghost s: nat, ghost busy: set<nat>)
      requires Shape() && InProgress(s, busy) && e == entries[s]
      modifies e`write
      ensures InProgress(s, busy) && Keeps(busy - {s})
      ensures e.Stored() == old(e.Stored()).(write := x)
    {
      hide Right, Ranked, Above;
      e.write := x;
    }

    method StoreCurr(e: Entry, x: Value, ghost s: nat, ghost busy: set<nat>)
      requires Shape() && InProgress(s, busy) && e == entries[s]
      modifies e`curr
      ensures InProgress(s, busy) && Keeps(busy - {s})
      ensures e.Stored() == old(e.Stored()).(curr := x)
    {
      hide Right, Ranked, Above;
      e.curr := x;
    }

    /** The visibility part of `sym_calc_visibility`. */
    method UpdateVisible(s: nat, ghost busy: set<nat>)
      requires Shape() && InProgress(s, busy)
      modifies entries
      ensures InProgress(s, busy) && Keeps(busy - {s})
      ensures entries[s].Stored() ==
              old(entries[s].Stored()).(visible := Visible(config, config.syms[s], Final(config, rank)))
      decreases rank[s], 3
    {
      var tri := CalcPrompts(s, busy);
      if tri == MOD && (config.syms[s].sym.stype != Tristate || config.modules == NO) {
        tri := YES;
      }
      StoreVisible(entries[s], tri, s, busy);
    }

    /** The value of one of the three dependency fields of `s`. */
    method CalcField(s: nat, d: Option<Expr>, absent: Tri, ghost busy: set<nat>) returns (tri: Tri)
      requires Shape() && InProgress(s, busy) && Below(UsesOf(d), rank[s])
      modifies entries
      ensures InProgress(s, busy) && Keeps(busy)
      ensures tri == Promote(TypeOf(config, config.syms[s].sym),
                             if d.None? then absent else Value3(config, d.value, Final(config, rank)))
      decreases rank[s], 3
    {
      tri := CalcDep(d, absent, rank[s], busy);
      if tri == MOD && TypeOf(config, config.syms[s].sym) == Boolean {
        tri := YES;
      }
    }

    /** `sym_calc_visibility`. */
    method CalcVisibility(s: nat, ghost busy: set<nat>)
      requires Shape() && InProgress(s, busy)
      modifies entries
      ensures InProgress(s, busy) && Keeps(busy - {s})
      ensures var i, a := config.syms[s], Final(config, rank);
              entries[s].Stored() == Outcome(
                old(entries[s].curr), Visible(config, i, a), DirDep(config, i, a), ReverseDep(config, i, i.revDep, a),
                ReverseDep(config, i, i.implied, a), old(entries[s].write))
      decreases rank[s], 5
    {
      UpdateVisible(s, busy);
      UpdateDirDep(s, busy);
      UpdateRevDep(s, busy);
      UpdateImplied(s, busy);
    }

    method UpdateDirDep(s: nat, ghost busy: set<nat>)
      requires Shape() && InProgress(s, busy)
      modifies entries
      ensures InProgress(s, busy) && Keeps(busy - {s})
      ensures entries[s].Stored() ==
              old(entries[s].Stored()).(dirDep := DirDep(config, config.syms[s], Final(config, rank)))
      decreases rank[s], 4
    {
      EdgesBelow(s);
      var tri := CalcField(s, config.syms[s].dirDep, YES, busy);
      StoreDirDep(entries[s], tri, s, busy);
    }

    method UpdateRevDep(s: nat, ghost busy: set<nat>)
      requires Shape() && InProgress(s, busy)
      modifies entries
      ensures InProgress(s, busy) && Keeps(busy - {s})
      ensures var i := config.syms[s];
              entries[s].Stored() ==
              old(entries[s].Stored()).(revDep := ReverseDep(config, i, i.revDep, Final(config, rank)))
      decreases rank[s], 4
    {
      EdgesBelow(s);
      var tri := CalcField(s, config.syms[s].revDep, NO, busy);
      StoreRevDep(entries[s], tri, s, busy);
    }

    method UpdateImplied(s: nat, ghost busy: set<nat>)
      requires Shape() && InProgress(s, busy)
      modifies entries
      ensures InProgress(s, busy) && Keeps(busy - {s})
      ensures var i := config.syms[s];
              entries[s].Stored() ==
              old(entries[s].Stored()).(implied := ReverseDep(config, i, i.implied, Final(config, rank)))
      decreases rank[s], 4
    {
      EdgesBelow(s);
      var tri := CalcField(s, config.syms[s].implied, NO, busy);
      StoreImplied(entries[s], tri, s, busy);
    }

    /** The visibility and the dependencies of `s` are stored. */
    ghost predicate FieldsRight(s: nat)
      requires Shape() && s < |entries|
      reads entries[s]
    {
      var i, a, e := config.syms[s], Final(config, rank), entries[s];
      && e.visible == Visible(config, i, a) && e.dirDep == DirDep(config, i, a)
      && e.revDep == ReverseDep(config, i, i.revDep, a) && e.implied == ReverseDep(config, i, i.implied, a)
    }

    /** The value of the default that applies to `s`; n without one. */
    method CalcDefault(s: nat, ghost busy: set<nat>) returns (v: Tri)
      requires Shape() && InProgress(s, busy)
      modifies entries
      ensures InProgress(s, busy) && Keeps(busy)
      ensures v == DefaultValue(config, config.syms[s], Final(config, rank))
      decreases rank[s], 3
    {
      var i := config.syms[s];
      v := NO;
      var k, visible := GetDefaultProp(s, busy);
      if k < |i.props| {
        PropExprsBelow(s, k);
        v := CalcDep(i.props[k].expr, YES, rank[s], busy);
        v := Min(v, visible);
      }
    }

    /** Default and implications of a bool or tristate symbol without a user value that applies. */
    method CalcSuggested(s: nat, ghost busy: set<nat>) returns (v: Tri)
      requires Shape() && InProgress(s, busy) && FieldsRight(s)
      modifies entries
      ensures InProgress(s, busy) && Keeps(busy - {s})
      ensures v == Suggested(config, config.syms[s], Final(config, rank))
      ensures var i, a := config.syms[s], Final(config, rank);
              entries[s].Stored() == old(entries[s].Stored()).(
                write := old(entries[s].write) || ReverseDep(config, i, i.revDep, a) != NO
                  || DefaultValue(config, i, a) != NO || ReverseDep(config, i, i.implied, a) != NO)
      decreases rank[s], 4
    {
      hide Visible, DirDep, ReverseDep, DefaultValue;
      var e := entries[s];
      if e.revDep != NO {
        StoreWrite(e, true, s, busy);
      }
      v := CalcDefault(s, busy);
      if v != NO {
        StoreWrite(e, true, s, busy);
      }
      if e.implied != NO {
        StoreWrite(e, true, s, busy);
        v := Max(v, e.implied);
        v := Min(v, e.dirDep);
      }
    }

    /** The bool and tristate case of `sym_calc_value`. */
    method CalcSwitch(s: nat, ghost busy: set<nat>) returns (v: Tri)
      requires Shape() && InProgress(s, busy) && FieldsRight(s)
      requires entries[s].write <==> entries[s].visible != NO
      modifies entries
      ensures InProgress(s, busy) && Keeps(busy - {s})
      ensures v == SwitchValue(config, config.syms[s], Final(config, rank))
      ensures entries[s].Stored() ==
              old(entries[s].Stored()).(write := SwitchWrite(config, config.syms[s], Final(config, rank)))
      decreases rank[s], 5
    {
      hide Visible, DirDep, ReverseDep, DefaultValue, Suggested;
      var i, e := config.syms[s], entries[s];
      if e.visible != NO && i.user.Some? {
        v := Min(i.user.value.tri, e.visible);
      } else {
        v := CalcSuggested(s, busy);
      }
      v := Max(v, e.revDep);
      if v == MOD && TypeOf(config, i.sym) == Boolean {
        v := YES;
      }
    }

    /** The text of the symbol that the default of `s` names; empty without one. */
    method CalcDefaultText(s: nat, ghost busy: set<nat>) returns (text: string, found: bool)
      requires Shape() && InProgress(s, busy)
      modifies entries
      ensures InProgress(s, busy) && Keeps(busy)
      ensures var d, a := DefaultSymbol(config, config.syms[s], Final(config, rank)), Final(config, rank);
              found == d.Some? && text == if d.Some? then a(d.value).text else ""
      decreases rank[s], 3
    {
      var i := config.syms[s];
      text, found := "", false;
      var k, visible := GetDefaultProp(s, busy);
      if k < |i.props| {
        PropExprsBelow(s, k);
        match i.props[k].expr {
          case Some(Sym(d)) =>
            found := true;
            assert d.id in UsesOf(i.props[k].expr);
            CalcValue(d.id, busy);
            text := entries[d.id].curr.text;
          case _ =>
        }
      }
    }

    /** The int, hex and string case of `sym_calc_value`. */
    method CalcText(s: nat, ghost busy: set<nat>) returns (text: string)
      requires Shape() && InProgress(s, busy) && FieldsRight(s)
      requires entries[s].write <==> entries[s].visible != NO
      modifies entries
      ensures InProgress(s, busy) && Keeps(busy - {s})
      ensures text == TextValue(config, config.syms[s], Final(config, rank))
      ensures entries[s].Stored() ==
              old(entries[s].Stored()).(write := TextWrite(config, config.syms[s], Final(config, rank)))
      decreases rank[s], 5
    {
      hide Visible, DirDep, ReverseDep, DefaultSymbol;
      var i, e := config.syms[s], entries[s];
      if e.visible != NO && i.user.Some? {
        text := i.user.value.text;
      } else {
        var found;
        text, found := CalcDefaultText(s, busy);
        if found {
          StoreWrite(e, true, s, busy);
        }
      }
    }

    /** Visibility and dependencies; a visible symbol is written. */
    method BeginTyped(s: nat, ghost busy: set<nat>)
      requires Shape() && InProgress(s, busy)
      modifies entries
      ensures InProgress(s, busy) && Keeps(busy - {s})
      ensures FieldsRight(s) && (entries[s].write <==> entries[s].visible != NO)
      decreases rank[s], 6
    {
      hide Visible, DirDep, ReverseDep, Right;
      var e := entries[s];
      StoreWrite(e, false, s, busy);
      CalcVisibility(s, busy);
      if e.visible != NO {
        StoreWrite(e, true, s, busy);
      }
    }

    /** `sym_calc_value` of a symbol with a type, once it is marked valid. */
    method CalcTyped(s: nat, ghost busy: set<nat>)
      requires Shape() && InProgress(s, busy)
      modifies entries
      ensures InProgress(s, busy) && Keeps(busy - {s})
      ensures entries[s].Stored() == Expected(s)
      decreases rank[s], 7
    {
      hide Visible, DirDep, ReverseDep, SwitchValue, TextValue, SwitchWrite, TextWrite, Right;
      var i, e := config.syms[s], entries[s];
      BeginTyped(s, busy);
      if IsSwitch(i.sym.stype) {
        StoreCurr(e, Value("n", NO), s, busy);
        var v := CalcSwitch(s, busy);
        StoreCurr(e, Value("n", v), s, busy);
      } else {
        StoreCurr(e, NOTHING, s, busy);
        var text := CalcText(s, busy);
        StoreCurr(e, Value(text, NO), s, busy);
      }
      if i.noWrite {
        StoreWrite(e, false, s, busy);
      }
    }

    /** An untyped symbol stands for its own name. */
    method CalcUntyped(e: Entry, s: nat, ghost busy: set<nat>)
      requires Shape() && Sound(busy) && s < |entries| && e == entries[s] && s !in busy
      requires config.syms[s].sym.stype == Unknown && config.syms[s].fixed.None?
      modifies e
      ensures Sound(busy) && Keeps(busy) && e.valid && Right(s)
    {
      hide Right, Ranked;
      e.valid := true;
      e.curr := Value(config.syms[s].name, NO);
      UntypedIsRight(s);
    }

    lemma {:induction false} UntypedIsRight(s: nat)
      requires Shape() && s < |entries| && entries[s].curr == Value(config.syms[s].name, NO)
      requires config.syms[s].sym.stype == Unknown && config.syms[s].fixed.None?
      ensures Right(s)
    {
      FinalSolvesAt(config, rank, s);
    }

    method MarkValid(e: Entry, s: nat, ghost busy: set<nat>)
      requires Shape() && Sound(busy) && s < |entries| && e == entries[s] && Above(busy, rank[s] + 1)
      requires config.syms[s].sym.stype != Unknown && config.syms[s].fixed.None?
      modifies e`valid
      ensures InProgress(s, busy + {s}) && Keeps(busy)
    {
      hide Right, Ranked;
      e.valid := true;
    }

    lemma {:induction false} TypedIsRight(s: nat, busy: set<nat>)
      requires Shape() && InProgress(s, busy + {s}) && s !in busy && entries[s].Stored() == Expected(s)
      ensures Sound(busy) && Right(s)
    {
      hide Compute, Spec;
      ExpectedIsSpec(s);
    }

    lemma {:induction false} ExpectedIsSpec(s: nat)
      requires Shape() && s < |entries|
      ensures Expected(s).curr == Spec(config, rank, s)
    {
      FinalSolvesAt(config, rank, s);
    }

    /** `sym_calc_value`. */
    method CalcValue(s: nat, ghost busy: set<nat>)
      requires Shape() && Sound(busy) && s < |entries| && Above(busy, rank[s] + 1)
      modifies entries
      ensures Sound(busy) && Keeps(busy) && entries[s].valid && Right(s)
      decreases rank[s], 8
    {
      var e := entries[s];
      if e.valid {
        return;
      }
      if config.syms[s].sym.stype == Unknown {
        CalcUntyped(e, s, busy);
        return;
      }
      hide Compute, Spec, Right;
      MarkValid(e, s, busy);
      assert busy + {s} - {s} == busy;
      CalcTyped(s, busy + {s});
      TypedIsRight(s, busy);
    }

    /** `sym_clear_all_valid`, without recalculating the modules symbol. */
    method ClearAllValid()
      requires Shape()
      requires forall i :: 0 <= i < |entries| && config.syms[i].fixed.Some? ==>
                 entries[i].valid && entries[i].curr == config.syms[i].fixed.value
      modifies entries
      ensures Sound({})
      ensures forall i :: 0 <= i < |entries| ==>
                entries[i].Stored() == old(entries[i].Stored()) && (entries[i].valid <==> config.syms[i].fixed.Some?)
    {
      var k := 0;
      while k < |entries|
        invariant 0 <= k <= |entries|
        invariant forall i :: 0 <= i < |entries| ==> entries[i].Stored() == old(entries[i].Stored())
        invariant forall i :: 0 <= i < |entries| && (i < k || config.syms[i].fixed.Some?) ==>
                    (entries[i].valid <==> config.syms[i].fixed.Some?)
      {
        if config.syms[k].fixed.None? {
          entries[k].valid := false;
        }
        k := k + 1;
      }
      hide Ranked;
      FixedAreRight();
    }

    lemma {:induction false} FixedAreRight()
      requires Shape()
      ensures forall i :: 0 <= i < |entries| && config.syms[i].fixed.Some? ==>
                Spec(config, rank, i) == config.syms[i].fixed.value
    {
      forall i | 0 <= i < |entries| && config.syms[i].fixed.Some?
        ensures Spec(config, rank, i) == config.syms[i].fixed.value
      {
        FinalSolvesAt(config, rank, i);
      }
    }

    /** Any symbols, calculated in any order, get their value in the only assignment that satisfies the table. */
    method CalcAll(order: seq<nat>)
      requires Shape() && Sound({}) && forall s :: s in order ==> s < |entries|
      modifies entries
      ensures Sound({})
      ensures forall s :: s in order ==> entries[s].valid && Right(s)
      ensures forall a: Assignment, s :: Solves(config, a) && s in order ==> entries[s].curr == a(s)
    {
      hide *;
      CalcOrder(order);
      AllSolved(order);
    }

    method CalcOrder(order: seq<nat>)
      requires Shape() && Sound({}) && forall s :: s in order ==> s < |entries|
      modifies entries
      ensures Sound({})
      ensures forall s :: s in order ==> s < |entries| && entries[s].valid && Right(s)
    {
      hide Right, Ranked;
      var k := 0;
      while k < |order|
        invariant 0 <= k <= |order| && Sound({})
        invariant forall j :: 0 <= j < k ==> order[j] < |entries| && entries[order[j]].valid
      {
        assert order[k] in order;
        CalcValue(order[k], {});
        k := k + 1;
      }
    }

    lemma {:induction false} AllSolved(order: seq<nat>)
      requires Shape() && forall s :: s in order ==> s < |entries| && Right(s)
      ensures forall a: Assignment, s :: Solves(config, a) && s in order ==> entries[s].curr == a(s)
    {
      hide Solves, Spec;
      forall a: Assignment, s | Solves(config, a) && s in order
        ensures entries[s].curr == a(s)
      {
        assert Right(s);
        SolutionIsUnique(config, rank, a, s);
      }
    }
  }
}
