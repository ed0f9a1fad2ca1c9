/**
 Exactly which values the symbols of a table get, read off their properties.
 */
module KconfigOutcome {
  import opened Options
  import opened KconfigExpr
  import opened KconfigSymbols
  import opened KconfigValues

  // ---- What the properties ask for ----

  /** Prompt `k` of the symbol is visible at least at `t`. */
  ghost predicate PromptAt(c: Config, ps: seq<Property>, k: nat, t: Tri, a: Assignment) {
    k < |ps| && ps[k].kind == Prompt && DepValue(c, ps[k].visible, a) >= t
  }

  ghost predicate Shown(c: Config, i: Info, t: Tri, a: Assignment) { exists k: nat :: PromptAt(c, i.props, k, t, a) }

  ghost predicate Applies(c: Config, p: Property, a: Assignment) {
    p.kind == Default && DepValue(c, p.visible, a) != NO
  }

  /** The first default that applies is property `k`. */
  ghost predicate DefaultAt(c: Config, i: Info, k: nat, a: Assignment) {
    k < |i.props| && Applies(c, i.props[k], a) && forall j :: 0 <= j < k ==> !Applies(c, i.props[j], a)
  }

  ghost predicate Defaulted(c: Config, i: Info, t: Tri, a: Assignment) {
    exists k: nat :: DefaultAt(c, i, k, a)
      && DepValue(c, i.props[k].expr, a) >= t && DepValue(c, i.props[k].visible, a) >= t
  }

  ghost predicate UserSet(c: Config, i: Info, a: Assignment) { i.user.Some? && Shown(c, i, MOD, a) }

  ghost predicate Asked(c: Config, d: Option<Expr>, t: Tri, a: Assignment) { d.Some? && Value3(c, d.value, a) >= t }

  /** A select asks for `t`; or the user does, as far as some prompt is visible; or, without that, the first default
      that applies does or, where the direct dependencies allow it, an implication. Where an implication asks for
      anything the direct dependencies limit the default too. */
  ghost predicate Reaches(c: Config, i: Info, t: Tri, a: Assignment) {
    || Asked(c, i.revDep, t, a)
    || (UserSet(c, i, a) && i.user.value.tri >= t && Shown(c, i, t, a))
    || (!UserSet(c, i, a) && !Asked(c, i.implied, MOD, a) && Defaulted(c, i, t, a))
    || (!UserSet(c, i, a) && Asked(c, i.implied, MOD, a)
        && (Defaulted(c, i, t, a) || Asked(c, i.implied, t, a)) && DepValue(c, i.dirDep, a) >= t)
  }

  // ---- The functions that calculate it ----

  lemma {:induction false} PromptsReach(c: Config, ps: seq<Property>, t: Tri, a: Assignment)
    requires t > NO
    ensures PromptsValue(c, ps, a) >= t <==> exists k: nat :: PromptAt(c, ps, k, t, a)
  {
    if ps != [] {
      PromptsReach(c, ps[1..], t, a);
      assert PromptAt(c, ps, 0, t, a) <==> ps[0].kind == Prompt && DepValue(c, ps[0].visible, a) >= t;
      if k: nat :| PromptAt(c, ps[1..], k, t, a) {
        assert PromptAt(c, ps, k + 1, t, a);
      }
      if k: nat :| PromptAt(c, ps, k, t, a) && k > 0 {
        assert PromptAt(c, ps[1..], k - 1, t, a);
      }
    }
  }

  lemma {:induction false} VisibleReaches(c: Config, i: Info, t: Tri, a: Assignment)
    requires IsSwitch(i.sym.stype) && t > NO
    ensures TypeOf(c, i.sym) == Tristate ==> (Visible(c, i, a) >= t <==> Shown(c, i, t, a))
    ensures TypeOf(c, i.sym) == Boolean ==> Visible(c, i, a) == if Shown(c, i, MOD, a) then YES else NO
  {
    PromptsReach(c, i.props, t, a);
    PromptsReach(c, i.props, MOD, a);
  }

  /** The default found is the first that applies. */
  lemma {:induction false} FirstDefaultIsFirst(c: Config, ps: seq<Property>, k: nat, a: Assignment)
    requires k <= |ps|
    ensures forall j :: k <= j < FirstDefault(c, ps, k, a) ==> !Applies(c, ps[j], a)
    ensures FirstDefault(c, ps, k, a) < |ps| ==> Applies(c, ps[FirstDefault(c, ps, k, a)], a)
    decreases |ps| - k
  {
    if k < |ps| && !Applies(c, ps[k], a) {
      FirstDefaultIsFirst(c, ps, k + 1, a);
    }
  }

  lemma {:induction false} DefaultAtExactly(c: Config, i: Info, k: nat, a: Assignment)
    ensures DefaultAt(c, i, k, a) <==> k < |i.props| && k == FirstDefault(c, i.props, 0, a)
  {
    FirstDefaultIsFirst(c, i.props, 0, a);
  }

  lemma {:induction false} DefaultReaches(c: Config, i: Info, t: Tri, a: Assignment)
    requires t > NO
    ensures DefaultValue(c, i, a) >= t <==> Defaulted(c, i, t, a)
  {
    var r := FirstDefault(c, i.props, 0, a);
    DefaultAtExactly(c, i, r, a);
    if k: nat :|
      && DefaultAt(c, i, k, a) && DepValue(c, i.props[k].expr, a) >= t && DepValue(c, i.props[k].visible, a) >= t
    {
      DefaultAtExactly(c, i, k, a);
    }
  }

  /** The value of a tristate is at least `t`, and a bool is y, exactly when what its properties ask for reaches so
      far. */
  lemma {:induction false} SwitchReaches(c: Config, i: Info, t: Tri, a: Assignment)
    requires IsSwitch(i.sym.stype) && t > NO
    ensures TypeOf(c, i.sym) == Tristate ==> (SwitchValue(c, i, a) >= t <==> Reaches(c, i, t, a))
    ensures TypeOf(c, i.sym) == Boolean ==> SwitchValue(c, i, a) == if Reaches(c, i, MOD, a) then YES else NO
  {
    VisibleReaches(c, i, t, a);
    VisibleReaches(c, i, MOD, a);
    DefaultReaches(c, i, t, a);
    DefaultReaches(c, i, MOD, a);
    hide Visible, DefaultValue, Shown, Defaulted;
  }

  lemma {:induction false} SwitchExactly(c: Config, rank: seq<nat>, s: nat)
    requires Ranked(c, rank) && s < |c.syms| && IsSwitch(c.syms[s].sym.stype) && c.syms[s].fixed.None?
    ensures var (i, a) := (c.syms[s], Final(c, rank));
            && (TypeOf(c, i.sym) == Tristate ==>
                  forall t: Tri :: t > NO ==> (a(s).tri >= t <==> Reaches(c, i, t, a)))
            && (TypeOf(c, i.sym) == Boolean ==> a(s).tri == if Reaches(c, i, MOD, a) then YES else NO)
  {
    var i, a := c.syms[s], Final(c, rank);
    SwitchSolves(c, rank, s);
    hide Final, SwitchValue, Reaches;
    forall t: Tri | t > NO
      ensures TypeOf(c, i.sym) == Tristate ==> (a(s).tri >= t <==> Reaches(c, i, t, a))
      ensures TypeOf(c, i.sym) == Boolean ==> a(s).tri == if Reaches(c, i, MOD, a) then YES else NO
    {
      SwitchReaches(c, i, t, a);
    }
    SwitchReaches(c, i, MOD, a);
  }

  /** A user value within the visibility is the value, one above it gives the visibility, unless a select asks for
      more. */
  lemma {:induction false} UserValueIsTaken(c: Config, rank: seq<nat>, s: nat)
    requires Ranked(c, rank) && s < |c.syms| && IsSwitch(c.syms[s].sym.stype) && c.syms[s].fixed.None?
    requires UserApplies(c, c.syms[s], Final(c, rank))
    ensures var (i, a) := (c.syms[s], Final(c, rank));
            var (v, shown, selected) := (i.user.value.tri, Visible(c, i, a), ReverseDep(c, i, i.revDep, a));
            && (v <= shown && selected <= v && (TypeOf(c, i.sym) == Boolean ==> v != MOD) ==> a(s).tri == v)
            && (shown <= v && selected <= shown ==> a(s).tri == shown)
            && (Min(v, shown) <= selected ==> a(s).tri == selected)
  {
    var i, a := c.syms[s], Final(c, rank);
    SwitchSolves(c, rank, s);
    if TypeOf(c, i.sym) == Boolean {
      VisibleIsTyped(c, i, a);
    }
  }

  // ---- Texts ----

  predicate IsText(t: SymbolType) { t == Int || t == Hex || t == Str }

  lemma {:induction false} TextVisible(c: Config, i: Info, a: Assignment)
    ensures Visible(c, i, a) != NO <==> Shown(c, i, MOD, a)
  {
    PromptsReach(c, i.props, MOD, a);
  }

  /** The text of an int, hex or string: the user's where some prompt is visible, otherwise that of the symbol which the
      first default that applies names, otherwise none. */
  lemma {:induction false} TextExactly(c: Config, rank: seq<nat>, s: nat)
    requires Ranked(c, rank) && s < |c.syms| && IsText(c.syms[s].sym.stype) && c.syms[s].fixed.None?
    ensures var (i, a) := (c.syms[s], Final(c, rank));
            && (UserSet(c, i, a) ==> a(s).text == i.user.value.text)
            && (!UserSet(c, i, a) ==>
                  forall k: nat, d: Symbol :: DefaultAt(c, i, k, a) && i.props[k].expr == Some(Sym(d)) ==>
                    a(s).text == a(d.id).text)
            && (!UserSet(c, i, a)
                && (forall k: nat, d: Symbol :: !(DefaultAt(c, i, k, a) && i.props[k].expr == Some(Sym(d)))) ==>
                  a(s).text == "")
  {
    var i, a := c.syms[s], Final(c, rank);
    FinalSolvesAt(c, rank, s);
    TextVisible(c, i, a);
    hide Final, Visible, Shown;
    DefaultAtExactly(c, i, FirstDefault(c, i.props, 0, a), a);
    forall k: nat | DefaultAt(c, i, k, a)
      ensures k == FirstDefault(c, i.props, 0, a)
    {
      DefaultAtExactly(c, i, k, a);
    }
  }

  /** As the value of an expression a symbol that is no bool or tristate is n; an undefined one has its name as text. */
  lemma {:induction false} OthersAreNo(c: Config, rank: seq<nat>, s: nat)
    requires Ranked(c, rank) && s < |c.syms| && !IsSwitch(c.syms[s].sym.stype) && c.syms[s].fixed.None?
    ensures Final(c, rank)(s).tri == NO
    ensures c.syms[s].sym.stype == Unknown ==> Final(c, rank)(s).text == c.syms[s].name
  {
    FinalSolvesAt(c, rank, s);
    hide Final;
  }

  // ---- Whether the symbol is written ----

  /** A bool or tristate is written where some prompt is visible or, without a user value, something else asks for
      it. */
  lemma {:induction false} SwitchWriteExactly(c: Config, i: Info, a: Assignment)
    requires IsSwitch(i.sym.stype)
    ensures Write(c, i, a) <==>
            && !i.noWrite
            && (Shown(c, i, MOD, a) || Asked(c, i.revDep, MOD, a) || Defaulted(c, i, MOD, a)
                || Asked(c, i.implied, MOD, a))
  {
    TextVisible(c, i, a);
    DefaultReaches(c, i, MOD, a);
    hide Visible, DefaultValue, Shown, Defaulted;
  }

  /** An int, hex or string is written where some prompt is visible or a default that names a symbol applies first. */
  lemma {:induction false} TextWriteExactly(c: Config, i: Info, a: Assignment)
    requires IsText(i.sym.stype)
    ensures Write(c, i, a) <==>
            && !i.noWrite
            && (Shown(c, i, MOD, a)
                || exists k: nat :: DefaultAt(c, i, k, a) && i.props[k].expr.Some? && i.props[k].expr.value.Sym?)
  {
    TextVisible(c, i, a);
    var r := FirstDefault(c, i.props, 0, a);
    DefaultAtExactly(c, i, r, a);
    forall k: nat | DefaultAt(c, i, k, a)
      ensures k == r
    {
      DefaultAtExactly(c, i, k, a);
    }
    hide Visible, Shown;
  }

  // ---- Comparisons ----

  /** A relation between numbers. */
  predicate Relates(rel: Relation, m: int, n: int) {
    match rel
    case Equal => m == n
    case Unequal => m != n
    case Lth => m < n
    case Leq => m <= n
    case Gth => m > n
    case Geq => m >= n
  }

  /** The texts of the two symbols read as numbers. */
  ghost predicate AreNumbers(c: Config, s: Symbol, t: Symbol, a: Assignment, x: Number, y: Number) {
    && !(s.stype == Str && t.stype == Str)
    && ParseText(c, s.stype, TextOf(c, s, a(s.id))) == Some(x)
    && ParseText(c, t.stype, TextOf(c, t, a(t.id))) == Some(y)
  }

  /** Two symbols whose texts are numbers are compared as such; if one is a hex, both modulo 2^64. */
  lemma {:induction false} NumbersCompare(c: Config, rel: Relation, s: Symbol, t: Symbol, a: Assignment, x: Number,
          y: Number)
    requires AreNumbers(c, s, t, a, x, y)
    ensures var w := 0x1_0000_0000_0000_0000;
            Value3(c, Cmp(rel, s, t), a) ==
            OfBool(if x.Signed? && y.Signed? then Relates(rel, x.value, y.value)
                   else Relates(rel, x.value % w, y.value % w))
  {
  }

  /** Text `a` comes before `b`: at the first difference it has the smaller character, or it is the beginning of `b`. */
  ghost predicate Before(a: string, b: string) {
    exists k: nat :: BeforeAt(a, b, k)
  }

  ghost predicate BeforeAt(a: string, b: string, k: nat) {
    k <= |a| && k < |b| && a[..k] == b[..k] && (k == |a| || a[k] < b[k])
  }

  lemma {:induction false} StrCmpIsOrder(a: string, b: string)
    ensures StrCmp(a, b) < 0 <==> Before(a, b)
    ensures StrCmp(a, b) > 0 <==> Before(b, a)
  {
    if a != [] && b != [] && a[0] == b[0] {
      StrCmpIsOrder(a[1..], b[1..]);
      BeforeTail(a, b);
      BeforeTail(b, a);
    } else {
      BeforeHead(a, b);
      BeforeHead(b, a);
    }
  }

  lemma {:induction false} BeforeTail(a: string, b: string)
    requires a != [] && b != [] && a[0] == b[0]
    ensures Before(a, b) <==> Before(a[1..], b[1..])
  {
    if k: nat :| BeforeAt(a, b, k) {
      assert k > 0;
      assert a[1..][..k - 1] == a[..k][1..] && b[1..][..k - 1] == b[..k][1..];
      assert BeforeAt(a[1..], b[1..], k - 1);
    }
    if k: nat :| BeforeAt(a[1..], b[1..], k) {
      assert a[..k + 1] == [a[0]] + a[1..][..k] && b[..k + 1] == [b[0]] + b[1..][..k];
      assert BeforeAt(a, b, k + 1);
    }
  }

  lemma {:induction false} HeadsEqual(a: string, b: string, k: nat)
    requires BeforeAt(a, b, k)
    ensures k > 0 ==> a != [] && b != [] && a[0] == b[0]
  {
    if k > 0 {
      assert a[..k][0] == b[..k][0];
    }
  }

  lemma {:induction false} BeforeHead(a: string, b: string)
    requires a == [] || b == [] || a[0] != b[0]
    ensures Before(a, b) <==> b != [] && (a == [] || a[0] < b[0])
  {
    if k: nat :| BeforeAt(a, b, k) {
      HeadsEqual(a, b, k);
    }
    if b != [] && (a == [] || a[0] < b[0]) {
      assert BeforeAt(a, b, 0);
    }
  }

  /** Two strings, or texts of which one is no number, are compared as texts. */
  lemma {:induction false} TextsCompare(c: Config, s: Symbol, t: Symbol, a: Assignment)
    requires (s.stype == Str && t.stype == Str)
             || ParseText(c, s.stype, TextOf(c, s, a(s.id))).None? || ParseText(c, t.stype, TextOf(c, t, a(t.id))).None?
    ensures var (x, y) := (TextOf(c, s, a(s.id)), TextOf(c, t, a(t.id)));
            && (Value3(c, Cmp(Equal, s, t), a) == YES <==> x == y)
            && (Value3(c, Cmp(Lth, s, t), a) == YES <==> Before(x, y))
            && (Value3(c, Cmp(Gth, s, t), a) == YES <==> Before(y, x))
  {
    StrCmpIsOrder(TextOf(c, s, a(s.id)), TextOf(c, t, a(t.id)));
  }

  /** Two bools or tristates are compared by their values. */
  lemma {:induction false} SwitchesCompare(c: Config, rel: Relation, s: Symbol, t: Symbol, a: Assignment)
    requires IsSwitch(s.stype) && IsSwitch(t.stype)
    requires c.modules == NO ==> a(s.id).tri != MOD && a(t.id).tri != MOD
    ensures Value3(c, Cmp(rel, s, t), a) == OfBool(Relates(rel, a(s.id).tri, a(t.id).tri))
  {
    assert LetterNumber(TextOf(c, s, a(s.id))) == a(s.id).tri && LetterNumber(TextOf(c, t, a(t.id))) == a(t.id).tri;
  }

  // ---- What a symbol depends on ----

  predicate Mentions(d: Option<Expr>, id: nat) { d.Some? && MentionsIn(d.value, id) }

  predicate MentionsIn(e: Expr, id: nat) {
    match e
    case Sym(s) => s.id == id
    case Not(x) => MentionsIn(x, id)
    case Bin(_, l, r) => MentionsIn(l, id) || MentionsIn(r, id)
    case Cmp(_, a, b) => a.id == id || b.id == id
  }

  lemma {:induction false} UsesExactly(e: Expr, id: nat)
    ensures id in Uses(e) <==> MentionsIn(e, id)
  {
    match e
    case Not(x) => UsesExactly(x, id);
    case Bin(_, l, r) => UsesExactly(l, id); UsesExactly(r, id);
    case _ =>
  }

  /** Property `k` makes the symbol depend on another: by its condition, unless it is a select or an imply, or as a
      default by what it gives. */
  ghost predicate PropMentions(ps: seq<Property>, k: nat, id: nat) {
    && k < |ps| && ps[k].kind != Select && ps[k].kind != Imply
    && (Mentions(ps[k].visible, id) || (ps[k].kind == Default && Mentions(ps[k].expr, id)))
  }

  lemma {:induction false} PropsUseExactly(ps: seq<Property>, id: nat)
    ensures id in PropsUse(ps) <==> exists k: nat :: PropMentions(ps, k, id)
  {
    if ps != [] {
      PropsUseExactly(ps[1..], id);
      if ps[0].visible.Some? {
        UsesExactly(ps[0].visible.value, id);
      }
      if ps[0].expr.Some? {
        UsesExactly(ps[0].expr.value, id);
      }
      assert id in PropUses(ps[0]) <==> PropMentions(ps, 0, id);
      if k: nat :| PropMentions(ps[1..], k, id) {
        assert PropMentions(ps, k + 1, id);
      }
      if k: nat :| PropMentions(ps, k, id) && k > 0 {
        assert PropMentions(ps[1..], k - 1, id);
      }
    }
  }

  /** A symbol depends on those that its dependencies and these properties mention, and on no other: selecting or
      implying a symbol is no dependency on it. */
  lemma {:induction false} EdgesExactly(i: Info, id: nat)
    ensures id in Edges(i) <==>
            || Mentions(i.dirDep, id) || Mentions(i.revDep, id) || Mentions(i.implied, id)
            || exists k: nat :: PropMentions(i.props, k, id)
  {
    PropsUseExactly(i.props, id);
    DepUsesExactly(i.dirDep, id);
    DepUsesExactly(i.revDep, id);
    DepUsesExactly(i.implied, id);
  }

  lemma {:induction false} DepUsesExactly(d: Option<Expr>, id: nat)
    ensures id in UsesOf(d) <==> Mentions(d, id)
  {
    if d.Some? {
      UsesExactly(d.value, id);
    }
  }
}
