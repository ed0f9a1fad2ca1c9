/**
 What the symbols of a Kconfig table should evaluate to: a recursive definition without memory, on tables
 without choices whose dependencies have no cycle.
 */
module KconfigSymbols {
  import opened Options
  import opened KconfigExpr

  /** A symbol's value: its text and its tristate (`struct symbol_value`). */
  datatype Value = Value(text: string, tri: Tri)

  datatype PropKind = Prompt | Default | Select | Imply | Other

  datatype Property = Property(kind: PropKind, visible: Option<Expr>, expr: Option<Expr>)

  /** The parts of a symbol that stay fixed while values are calculated. `fixed` is the value of a symbol that
      is always valid: the letters y, m, n and the modules symbol. */
  datatype Info = Info(
    sym: Symbol,
    name: string,
    props: seq<Property>,
    dirDep: Option<Expr>,
    revDep: Option<Expr>,
    implied: Option<Expr>,
    user: Option<Value>,
    noWrite: bool,
    fixed: Option<Value>)

  datatype Number = Signed(value: int) | Unsigned(value: int)

  /** A table, the value of the modules symbol, and how the C library reads a whole text as a number. */
  datatype Config = Config(syms: seq<Info>, modules: Tri, number: (SymbolType, string) -> Option<Number>)

  /** Everything `sym_calc_value` stores in a symbol. */
  datatype Outcome = Outcome(curr: Value, visible: Tri, dirDep: Tri, revDep: Tri, implied: Tri, write: bool)

  /** A value for every symbol id. */
  type Assignment = nat -> Value

  // ---- Which symbols an expression mentions ----

  function Uses(e: Expr): set<nat> {
    match e
    case Sym(s) => {s.id}
    case Not(x) => Uses(x)
    case Bin(_, l, r) => Uses(l) + Uses(r)
    case Cmp(_, a, b) => {a.id, b.id}
  }

  function UsesOf(d: Option<Expr>): set<nat> { if d.None? then {} else Uses(d.value) }

  /** What the dependency check follows from one property. */
  function PropUses(p: Property): set<nat> {
    if p.kind == Select || p.kind == Imply then {}
    else UsesOf(p.visible) + if p.kind == Default then UsesOf(p.expr) else {}
  }

  function PropsUse(ps: seq<Property>): set<nat> {
    if ps == [] then {} else PropUses(ps[0]) + PropsUse(ps[1..])
  }

  /** The symbols a symbol depends on. */
  function Edges(i: Info): set<nat> {
    UsesOf(i.dirDep) + UsesOf(i.revDep) + UsesOf(i.implied) + PropsUse(i.props)
  }

  lemma {:induction false} PropsUseContains(ps: seq<Property>, k: nat)
    requires k < |ps|
    ensures PropUses(ps[k]) <= PropsUse(ps)
  {
    if k > 0 {
      PropsUseContains(ps[1..], k - 1);
    }
  }

  /** Every id in the table exists; the letters come first and have their own values. */
  ghost predicate WellFormed(c: Config) {
    && |c.syms| >= 3
    && (forall s, d :: 0 <= s < |c.syms| && d in Edges(c.syms[s]) ==> d < |c.syms|)
    && c.syms[0].fixed == Some(Value("y", YES))
    && c.syms[1].fixed == Some(Value("m", MOD))
    && c.syms[2].fixed == Some(Value("n", NO))
  }

  /** Every symbol ranks above all it depends on. */
  ghost predicate Ranked(c: Config, rank: seq<nat>) {
    && |rank| == |c.syms|
    && WellFormed(c)
    && forall s, d :: 0 <= s < |c.syms| && d in Edges(c.syms[s]) ==> rank[d] < rank[s]
  }

  // ---- Comparisons ----

  function LetterNumber(text: string): int {
    if text == "n" then 0 else if text == "m" then 1 else if text == "y" then 2 else -1
  }

  /** `expr_parse_string`. */
  function ParseText(c: Config, t: SymbolType, text: string): Option<Number> {
    if t == Boolean || t == Tristate then Some(Signed(LetterNumber(text))) else c.number(t, text)
  }

  /** `sym_get_string_value`. */
  function TextOf(c: Config, s: Symbol, v: Value): string {
    if s.stype == Boolean || s.stype == Tristate then
      if v.tri == YES then "y" else if v.tri == NO || c.modules == NO then "n" else "m"
    else v.text
  }

  /** `strcmp`. */
  function StrCmp(a: string, b: string): (r: int)
    ensures r == 0 <==> a == b
  {
    if a == [] then (if b == [] then 0 else -1)
    else if b == [] then 1
    else if a[0] == b[0] then
      assert a == [a[0]] + a[1..] && b == [b[0]] + b[1..];
      StrCmp(a[1..], b[1..])
    else if a[0] < b[0] then -1 else 1
  }

  function Sign(x: int, y: int): int { if x < y then -1 else if x > y then 1 else 0 }

  /** The sign of a comparison of two symbols, as numbers where both can be read so and as text otherwise. */
  function Compare(c: Config, s: Symbol, v: Value, t: Symbol, w: Value): int {
    var (x, y) := (TextOf(c, s, v), TextOf(c, t, w));
    if s.stype == Str && t.stype == Str then StrCmp(x, y) else
    match (ParseText(c, s.stype, x), ParseText(c, t.stype, y))
    case (Some(Signed(m)), Some(Signed(n))) => Sign(m, n)
    case (Some(m), Some(n)) => Sign(m.value % 0x1_0000_0000_0000_0000, n.value % 0x1_0000_0000_0000_0000)
    case (_, _) => StrCmp(x, y)
  }

  function EnvOf(c: Config, a: Assignment): Env {
    Env((s: Symbol) => a(s.id).tri, (s: Symbol, t: Symbol) => Compare(c, s, a(s.id), t, a(t.id)))
  }

  function Value3(c: Config, e: Expr, a: Assignment): Tri { Eval(e, EnvOf(c, a)) }

  function DepValue(c: Config, d: Option<Expr>, a: Assignment): Tri { EvalDep(d, EnvOf(c, a)) }

  // ---- One symbol from the values of those it depends on ----

  /** `sym_get_type`: without modules a tristate symbol is a bool. */
  function TypeOf(c: Config, s: Symbol): SymbolType {
    if s.stype == Tristate && c.modules == NO then Boolean else s.stype
  }

  /** A bool has no m; it becomes y. */
  function Promote(t: SymbolType, v: Tri): Tri { if v == MOD && t == Boolean then YES else v }

  /** The largest visibility of the prompts among `ps`. */
  function PromptsValue(c: Config, ps: seq<Property>, a: Assignment): Tri {
    if ps == [] then NO
    else if ps[0].kind == Prompt then Max(DepValue(c, ps[0].visible, a), PromptsValue(c, ps[1..], a))
    else PromptsValue(c, ps[1..], a)
  }

  function Visible(c: Config, i: Info, a: Assignment): Tri {
    var v := PromptsValue(c, i.props, a);
    if v == MOD && (i.sym.stype != Tristate || c.modules == NO) then YES else v
  }

  function DirDep(c: Config, i: Info, a: Assignment): Tri {
    Promote(TypeOf(c, i.sym), DepValue(c, i.dirDep, a))
  }

  /** An absent reverse dependency is n. */
  function ReverseDep(c: Config, i: Info, d: Option<Expr>, a: Assignment): Tri {
    if d.None? then NO else Promote(TypeOf(c, i.sym), Value3(c, d.value, a))
  }

  /** The index of the first default in `ps` from `k` on whose condition is not n; |ps| if there is none. */
  function FirstDefault(c: Config, ps: seq<Property>, k: nat, a: Assignment): (r: nat)
    requires k <= |ps|
    ensures k <= r <= |ps|
    ensures r < |ps| ==> ps[r].kind == Default && DepValue(c, ps[r].visible, a) != NO
    decreases |ps| - k
  {
    if k == |ps| then k
    else if ps[k].kind == Default && DepValue(c, ps[k].visible, a) != NO then k
    else FirstDefault(c, ps, k + 1, a)
  }

  /** The value of the default of a bool or tristate symbol: n without one. */
  function DefaultValue(c: Config, i: Info, a: Assignment): Tri {
    var k := FirstDefault(c, i.props, 0, a);
    if k == |i.props| then NO
    else Min(DepValue(c, i.props[k].expr, a), DepValue(c, i.props[k].visible, a))
  }

  /** The symbol a default of an int, hex or string symbol names. */
  function DefaultSymbol(c: Config, i: Info, a: Assignment): Option<nat> {
    var k := FirstDefault(c, i.props, 0, a);
    if k == |i.props| then None
    else match i.props[k].expr
      case Some(Sym(s)) => Some(s.id)
      case _ => None
  }

  predicate IsSwitch(t: SymbolType) { t == Boolean || t == Tristate }

  /** Default and implications, limited by the direct dependencies. */
  function Suggested(c: Config, i: Info, a: Assignment): Tri {
    var d, m := DefaultValue(c, i, a), ReverseDep(c, i, i.implied, a);
    if m != NO then Min(Max(d, m), DirDep(c, i, a)) else d
  }

  predicate UserApplies(c: Config, i: Info, a: Assignment) { Visible(c, i, a) != NO && i.user.Some? }

  /** The value of a bool or tristate symbol. */
  function SwitchValue(c: Config, i: Info, a: Assignment): Tri {
    var v := if UserApplies(c, i, a) then Min(i.user.value.tri, Visible(c, i, a)) else Suggested(c, i, a);
    Promote(TypeOf(c, i.sym), Max(v, ReverseDep(c, i, i.revDep, a)))
  }

  function SwitchWrite(c: Config, i: Info, a: Assignment): bool {
    || Visible(c, i, a) != NO
    || (!UserApplies(c, i, a) &&
        (ReverseDep(c, i, i.revDep, a) != NO || DefaultValue(c, i, a) != NO || ReverseDep(c, i, i.implied, a) != NO))
  }

  /** The text of an int, hex or string symbol. */
  function TextValue(c: Config, i: Info, a: Assignment): string {
    if UserApplies(c, i, a) then i.user.value.text
    else match DefaultSymbol(c, i, a)
      case Some(d) => a(d).text
      case None => ""
  }

  function TextWrite(c: Config, i: Info, a: Assignment): bool {
    Visible(c, i, a) != NO || DefaultSymbol(c, i, a).Some?
  }

  /** The value of a symbol. */
  function Curr(c: Config, i: Info, a: Assignment): Value {
    if i.fixed.Some? then i.fixed.value
    else if i.sym.stype == Unknown then Value(i.name, NO)
    else if IsSwitch(i.sym.stype) then Value("n", SwitchValue(c, i, a))
    else Value(TextValue(c, i, a), NO)
  }

  function Write(c: Config, i: Info, a: Assignment): bool {
    !i.noWrite && if IsSwitch(i.sym.stype) then SwitchWrite(c, i, a) else TextWrite(c, i, a)
  }

  /** All that is stored for a symbol with a type. */
  function Compute(c: Config, i: Info, a: Assignment): Outcome {
    Outcome(Curr(c, i, a), Visible(c, i, a), DirDep(c, i, a), ReverseDep(c, i, i.revDep, a),
            ReverseDep(c, i, i.implied, a), Write(c, i, a))
  }

  // ---- A symbol depends on its edges only ----

  ghost predicate Agree(a: Assignment, b: Assignment, ids: set<nat>) { forall d :: d in ids ==> a(d) == b(d) }

  lemma {:induction false} ValueAgrees(c: Config, e: Expr, a: Assignment, b: Assignment)
    requires Agree(a, b, Uses(e))
    ensures Value3(c, e, a) == Value3(c, e, b)
  {
    match e
    case Sym(_) =>
    case Not(x) => ValueAgrees(c, x, a, b);
    case Bin(_, l, r) => ValueAgrees(c, l, a, b); ValueAgrees(c, r, a, b);
    case Cmp(_, s, t) =>
      assert s.id in Uses(e) && t.id in Uses(e);
  }

  lemma {:induction false} DepAgrees(c: Config, d: Option<Expr>, a: Assignment, b: Assignment)
    requires Agree(a, b, UsesOf(d))
    ensures DepValue(c, d, a) == DepValue(c, d, b)
  {
    if d.Some? {
      ValueAgrees(c, d.value, a, b);
    }
  }

  lemma {:induction false} PromptsAgree(c: Config, ps: seq<Property>, a: Assignment, b: Assignment)
    requires Agree(a, b, PropsUse(ps))
    ensures PromptsValue(c, ps, a) == PromptsValue(c, ps, b)
  {
    if ps != [] {
      PromptsAgree(c, ps[1..], a, b);
      if ps[0].kind == Prompt {
        DepAgrees(c, ps[0].visible, a, b);
      }
    }
  }

  lemma {:induction false} PropAgrees(c: Config, ps: seq<Property>, k: nat, a: Assignment, b: Assignment)
    requires Agree(a, b, PropsUse(ps)) && k < |ps| && ps[k].kind == Default
    ensures DepValue(c, ps[k].visible, a) == DepValue(c, ps[k].visible, b)
    ensures DepValue(c, ps[k].expr, a) == DepValue(c, ps[k].expr, b)
  {
    PropsUseContains(ps, k);
    assert UsesOf(ps[k].visible) <= PropUses(ps[k]) && UsesOf(ps[k].expr) <= PropUses(ps[k]);
    DepAgrees(c, ps[k].visible, a, b);
    DepAgrees(c, ps[k].expr, a, b);
  }

  lemma {:induction false} FirstDefaultAgrees(c: Config, ps: seq<Property>, k: nat, a: Assignment, b: Assignment)
    requires Agree(a, b, PropsUse(ps)) && k <= |ps|
    ensures FirstDefault(c, ps, k, a) == FirstDefault(c, ps, k, b)
    decreases |ps| - k
  {
    if k < |ps| {
      if ps[k].kind == Default {
        PropAgrees(c, ps, k, a, b);
      }
      FirstDefaultAgrees(c, ps, k + 1, a, b);
    }
  }

  lemma {:induction false} DefaultsAgree(c: Config, i: Info, a: Assignment, b: Assignment)
    requires Agree(a, b, PropsUse(i.props))
    ensures DefaultValue(c, i, a) == DefaultValue(c, i, b)
    ensures DefaultSymbol(c, i, a) == DefaultSymbol(c, i, b)
    ensures DefaultSymbol(c, i, a).Some? ==> DefaultSymbol(c, i, a).value in PropsUse(i.props)
  {
    var k := FirstDefault(c, i.props, 0, a);
    FirstDefaultAgrees(c, i.props, 0, a, b);
    if k < |i.props| {
      PropAgrees(c, i.props, k, a, b);
      PropsUseContains(i.props, k);
    }
  }

  lemma {:induction false} PartsAgree(c: Config, i: Info, a: Assignment, b: Assignment)
    requires Agree(a, b, Edges(i))
    ensures Visible(c, i, a) == Visible(c, i, b) && DirDep(c, i, a) == DirDep(c, i, b)
    ensures ReverseDep(c, i, i.revDep, a) == ReverseDep(c, i, i.revDep, b)
    ensures ReverseDep(c, i, i.implied, a) == ReverseDep(c, i, i.implied, b)
  {
    DepAgrees(c, i.dirDep, a, b);
    DepAgrees(c, i.revDep, a, b);
    DepAgrees(c, i.implied, a, b);
    PromptsAgree(c, i.props, a, b);
  }

  /** The outcome of a symbol is the same under two assignments that agree on what it depends on. */
  lemma {:induction false} ComputeAgrees(c: Config, i: Info, a: Assignment, b: Assignment)
    requires Agree(a, b, Edges(i))
    ensures Compute(c, i, a) == Compute(c, i, b)
  {
    PartsAgree(c, i, a, b);
    DefaultsAgree(c, i, a, b);
    hide Visible, DirDep, ReverseDep, DefaultValue, DefaultSymbol;
  }

  // ---- The recursive definition ----

  const NOTHING: Value := Value("", NO)

  /** The value of symbol `s`, calculated from scratch. */
  function Spec(c: Config, rank: seq<nat>, s: nat): Value
    requires Ranked(c, rank) && s < |c.syms|
    decreases rank[s]
  {
    Curr(c, c.syms[s],
         (d: nat) => if d < |c.syms| && rank[d] < rank[s] then Spec(c, rank, d) else NOTHING)
  }

  function Final(c: Config, rank: seq<nat>): Assignment
    requires Ranked(c, rank)
  {
    (d: nat) => if d < |c.syms| then Spec(c, rank, d) else NOTHING
  }

  /** An assignment in which every symbol has the value its dependencies give it. */
  ghost predicate Solves(c: Config, a: Assignment) {
    forall s :: 0 <= s < |c.syms| ==> a(s) == Curr(c, c.syms[s], a)
  }

  lemma {:induction false} FinalSolvesAt(c: Config, rank: seq<nat>, s: nat)
    requires Ranked(c, rank) && s < |c.syms|
    ensures Final(c, rank)(s) == Curr(c, c.syms[s], Final(c, rank))
  {
    var below := (d: nat) => if d < |c.syms| && rank[d] < rank[s] then Spec(c, rank, d) else NOTHING;
    forall d | d in Edges(c.syms[s])
      ensures below(d) == Final(c, rank)(d)
    {
    }
    ComputeAgrees(c, c.syms[s], below, Final(c, rank));
  }

  /** The recursive definition satisfies every symbol's equation at once. */
  lemma {:induction false} FinalSolves(c: Config, rank: seq<nat>)
    requires Ranked(c, rank)
    ensures Solves(c, Final(c, rank))
  {
    forall s | 0 <= s < |c.syms|
      ensures Final(c, rank)(s) == Curr(c, c.syms[s], Final(c, rank))
    {
      FinalSolvesAt(c, rank, s);
    }
  }

  /** Without cycles the equations have one solution. */
  lemma {:induction false} SolutionIsUnique(c: Config, rank: seq<nat>, a: Assignment, s: nat)
    requires Ranked(c, rank) && Solves(c, a) && s < |c.syms|
    ensures a(s) == Final(c, rank)(s)
    decreases rank[s]
  {
    forall d | d in Edges(c.syms[s])
      ensures a(d) == Final(c, rank)(d)
    {
      SolutionIsUnique(c, rank, a, d);
    }
    ComputeAgrees(c, c.syms[s], a, Final(c, rank));
    FinalSolvesAt(c, rank, s);
  }
}
