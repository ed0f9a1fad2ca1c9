/**
 `sym_check_deps`: a depth-first search that reports a symbol on a dependency cycle, or proves by silence that
 there is none. On a table it accepts, evaluation gives every symbol its value.
 */
module KconfigCycle {
  import opened Options
  import opened KconfigExpr
  import opened KconfigSymbols
  import opened KconfigEvaluate

  /** Each symbol depends on the next. */
  ghost predicate Path(c: Config, p: seq<nat>) {
    && (forall i :: 0 <= i < |p| ==> p[i] < |c.syms|)
    && (forall i :: 0 < i < |p| ==> p[i] in Edges(c.syms[p[i - 1]]))
  }

  ghost predicate IsCycle(c: Config, p: seq<nat>, x: nat) {
    Path(c, p) && |p| >= 2 && p[0] == x && p[|p| - 1] == x
  }

  ghost predicate OnCycle(c: Config, x: nat) { exists p :: IsCycle(c, p, x) }

  /** All dependencies of each symbol come before it. */
  ghost predicate Ordered(c: Config, fin: seq<nat>) {
    forall k, d :: 0 <= k < |fin| && fin[k] < |c.syms| && d in Edges(c.syms[fin[k]]) ==> d in fin[..k]
  }

  lemma {:induction false} PathPrefix(c: Config, p: seq<nat>, s: nat)
    requires Path(c, p + [s])
    ensures Path(c, p)
  {
    assert forall i :: 0 <= i < |p| ==> (p + [s])[i] == p[i];
  }

  lemma {:induction false} OrderedGrows(c: Config, fin: seq<nat>, s: nat)
    requires Ordered(c, fin) && s < |c.syms| && forall d :: d in Edges(c.syms[s]) ==> d in fin
    ensures Ordered(c, fin + [s])
  {
    forall k, d | 0 <= k < |fin + [s]| && (fin + [s])[k] < |c.syms| && d in Edges(c.syms[(fin + [s])[k]])
      ensures d in (fin + [s])[..k]
    {
      assert (fin + [s])[..k] == fin[..k];
      if k == |fin| {
        assert fin[..k] == fin;
      }
    }
  }

  lemma {:induction false} PathSinks(c: Config, rank: seq<nat>, p: seq<nat>)
    requires Ranked(c, rank) && Path(c, p) && |p| >= 2
    ensures rank[p[|p| - 1]] < rank[p[0]]
  {
    if |p| > 2 {
      PathSinks(c, rank, p[..|p| - 1]);
    }
  }

  /** A ranked table has no cycle. */
  lemma {:induction false} RankedHasNoCycle(c: Config, rank: seq<nat>, x: nat)
    requires Ranked(c, rank)
    ensures !OnCycle(c, x)
  {
    if OnCycle(c, x) {
      var p :| IsCycle(c, p, x);
      PathSinks(c, rank, p);
    }
  }

  function IndexOf(fin: seq<nat>, x: nat): (k: nat)
    requires x in fin
    ensures k < |fin| && fin[k] == x && forall j :: 0 <= j < k ==> fin[j] != x
  {
    if fin[0] == x then 0 else IndexOf(fin[1..], x) + 1
  }

  function RankOf(fin: seq<nat>, x: nat): nat { if x in fin then IndexOf(fin, x) + 1 else 0 }

  /** The order in which the search finishes ranks the symbols. */
  lemma {:induction false} OrderRanks(c: Config, fin: seq<nat>)
    requires WellFormed(c) && Ordered(c, fin)
    requires forall s :: 0 <= s < |c.syms| && Edges(c.syms[s]) != {} ==> s in fin
    ensures Ranked(c, seq(|c.syms|, (s: nat) => RankOf(fin, s)))
  {
    forall s, d | 0 <= s < |c.syms| && d in Edges(c.syms[s])
      ensures RankOf(fin, d) < RankOf(fin, s)
    {
      EdgeRanks(c, fin, s, d);
    }
  }

  lemma {:induction false} EdgeRanks(c: Config, fin: seq<nat>, s: nat, d: nat)
    requires Ordered(c, fin) && s < |c.syms| && s in fin && d in Edges(c.syms[s])
    ensures RankOf(fin, d) < RankOf(fin, s)
  {
    var k := IndexOf(fin, s);
    var j :| 0 <= j < k && fin[j] == d;
  }

  class Checker {
    const config: Config
    const entries: seq<Entry>

    constructor (c: Config, es: seq<Entry>)
      ensures config == c && entries == es
    {
      config, entries := c, es;
    }

    ghost predicate Shape() {
      && WellFormed(config)
      && |entries| == |config.syms|
      && forall i, j :: 0 <= i < j < |entries| ==> entries[i] != entries[j]
    }

    /** `path` is the stack of symbols under check: each depends on the next, and just they are flagged. */
    ghost predicate Stack(path: seq<nat>)
      requires Shape()
      reads entries
    {
      && Path(config, path)
      && (forall i :: 0 <= i < |entries| ==> (entries[i].check <==> i in path))
      && (forall x :: x in path ==> entries[x].checked)
    }

    /** Every symbol checked so far is finished or on the stack. */
    ghost predicate Covered(fin: seq<nat>, path: seq<nat>)
      requires Shape()
      reads entries
    {
      forall i :: 0 <= i < |entries| && entries[i].checked ==> i in fin || i in path
    }

    ghost predicate Unchecked(todo: set<nat>)
      requires Shape()
      reads entries
    {
      forall i :: 0 <= i < |entries| && !entries[i].checked ==> i in todo
    }

    /** The state between two steps of the search; `ok` while no cycle has been reported. */
    ghost predicate Ready(path: seq<nat>, fin: seq<nat>, ok: bool, todo: set<nat>)
      requires Shape()
      reads entries
    {
      Stack(path) && Unchecked(todo) && (ok ==> Ordered(config, fin) && Covered(fin, path))
    }

    /** What a step leaves: a reported symbol is on a cycle; otherwise all of `ids` are finished. */
    ghost predicate Checked(r: Option<nat>, ids: set<nat>, fin: seq<nat>, fin': seq<nat>, ok: bool)
      requires Shape()
    {
      && (r.Some? ==> OnCycle(config, r.value))
      && (r.None? && ok ==> fin <= fin' && forall d :: d in ids ==> d in fin')
    }

    /** `sym_check_deps`. */
    method CheckDeps(s: nat, ghost path: seq<nat>, ghost fin: seq<nat>, ghost ok: bool, ghost todo: set<nat>)
      returns (r: Option<nat>, ghost fin': seq<nat>)
      requires Shape() && s < |entries| && Ready(path, fin, ok, todo)
      requires path == [] || s in Edges(config.syms[path[|path| - 1]])
      modifies entries`check, entries`checked
      ensures Ready(path, fin', ok && r.None?, todo) && Checked(r, {s}, fin, fin', ok)
      decreases todo, 0
    {
      var e := entries[s];
      fin' := fin;
      if e.check {
        StackCycle(path, s);
        return Some(s), fin;
      }
      if e.checked {
        return None, fin;
      }
      Enter(e, s, path, fin, ok, todo);
      r, fin' := CheckSymDeps(s, path + [s], fin, ok, todo - {s});
      Leave(e, s, path, fin', ok && r.None?, todo);
      if r.None? {
        fin' := fin' + [s];
      }
    }

    /** A flagged symbol closes a cycle with the top of the stack. */
    lemma {:induction false} StackCycle(path: seq<nat>, s: nat)
      requires Shape() && s < |entries| && Stack(path) && entries[s].check
      requires path == [] || s in Edges(config.syms[path[|path| - 1]])
      ensures OnCycle(config, s)
    {
      var i :| 0 <= i < |path| && path[i] == s;
      assert IsCycle(config, path[i..] + [s], s);
    }

    method Enter(e: Entry, s: nat, ghost path: seq<nat>, ghost fin: seq<nat>, ghost ok: bool, ghost todo: set<nat>)
      requires Shape() && s < |entries| && Ready(path, fin, ok, todo) && e == entries[s] && !e.check && !e.checked
      requires path == [] || s in Edges(config.syms[path[|path| - 1]])
      modifies e`check, e`checked
      ensures Ready(path + [s], fin, ok, todo - {s}) && s !in path && s in todo
    {
      e.check := true;
      e.checked := true;
    }

    method Leave(e: Entry, s: nat, ghost path: seq<nat>, ghost fin: seq<nat>, ghost ok: bool, ghost todo: set<nat>)
      requires Shape() && s < |entries| && Ready(path + [s], fin, ok, todo - {s}) && e == entries[s] && s !in path
      requires ok ==> forall d :: d in Edges(config.syms[s]) ==> d in fin
      modifies e`check
      ensures Ready(path, if ok then fin + [s] else fin, ok, todo)
    {
      e.check := false;
      PathPrefix(config, path, s);
      if ok {
        OrderedGrows(config, fin, s);
      }
    }

    /** `sym_check_sym_deps`. */
    method CheckSymDeps(s: nat, ghost path: seq<nat>, ghost fin: seq<nat>, ghost ok: bool, ghost todo: set<nat>)
      returns (r: Option<nat>, ghost fin': seq<nat>)
      requires Shape() && s < |entries| && Ready(path, fin, ok, todo) && path != [] && path[|path| - 1] == s
      modifies entries`check, entries`checked
      ensures Ready(path, fin', ok && r.None?, todo) && Checked(r, Edges(config.syms[s]), fin, fin', ok)
      decreases todo, 4
    {
      hide Ready, Stack, OnCycle;
      var i := config.syms[s];
      r, fin' := CheckOption(i.dirDep, path, fin, ok, todo);
      if r.Some? {
        return;
      }
      ghost var f := fin';
      r, fin' := CheckOption(i.revDep, path, f, ok, todo);
      if r.Some? {
        return;
      }
      f := fin';
      r, fin' := CheckOption(i.implied, path, f, ok, todo);
      if r.Some? {
        return;
      }
      f := fin';
      r, fin' := CheckProps(s, path, f, ok, todo);
    }

    /** The loop over the properties in `sym_check_sym_deps`. */
    method CheckProps(s: nat, ghost path: seq<nat>, ghost fin: seq<nat>, ghost ok: bool, ghost todo: set<nat>)
      returns (r: Option<nat>, ghost fin': seq<nat>)
      requires Shape() && s < |entries| && Ready(path, fin, ok, todo) && path != [] && path[|path| - 1] == s
      modifies entries`check, entries`checked
      ensures Ready(path, fin', ok && r.None?, todo) && Checked(r, PropsUse(config.syms[s].props), fin, fin', ok)
      decreases todo, 3
    {
      var ps := config.syms[s].props;
      r, fin' := None, fin;
      ghost var f;
      var k := 0;
      while k < |ps|
        invariant 0 <= k <= |ps| && r.None?
        invariant Ready(path, fin', ok, todo) && (ok ==> fin <= fin')
        invariant ok ==> forall d :: d in PropsUse(ps) && d !in PropsUse(ps[k..]) ==> d in fin'
      {
        assert ps[k..][0] == ps[k] && ps[k..][1..] == ps[k + 1..];
        PropsUseContains(ps, k);
        if ps[k].kind != Select && ps[k].kind != Imply {
          f := fin';
          r, fin' := CheckOption(ps[k].visible, path, f, ok, todo);
          if r.Some? {
            break;
          }
          if ps[k].kind == Default {
            f := fin';
            r, fin' := CheckOption(ps[k].expr, path, f, ok, todo);
            if r.Some? {
              break;
            }
          }
        }
        k := k + 1;
      }
    }

    method CheckOption(d: Option<Expr>, ghost path: seq<nat>, ghost fin: seq<nat>, ghost ok: bool, ghost todo: set<nat>)
      returns (r: Option<nat>, ghost fin': seq<nat>)
      requires Shape() && Ready(path, fin, ok, todo) && path != []
      requires path[|path| - 1] < |entries| && UsesOf(d) <= Edges(config.syms[path[|path| - 1]])
      modifies entries`check, entries`checked
      ensures Ready(path, fin', ok && r.None?, todo) && Checked(r, UsesOf(d), fin, fin', ok)
      decreases todo, 2
    {
      r, fin' := None, fin;
      if d.Some? {
        r, fin' := CheckExprDeps(d.value, path, fin, ok, todo);
      }
    }

    /** `sym_check_expr_deps`. */
    method CheckExprDeps(e: Expr, ghost path: seq<nat>, ghost fin: seq<nat>, ghost ok: bool, ghost todo: set<nat>)
      returns (r: Option<nat>, ghost fin': seq<nat>)
      requires Shape() && Ready(path, fin, ok, todo) && path != []
      requires path[|path| - 1] < |entries| && Uses(e) <= Edges(config.syms[path[|path| - 1]])
      modifies entries`check, entries`checked
      ensures Ready(path, fin', ok && r.None?, todo) && Checked(r, Uses(e), fin, fin', ok)
      decreases todo, 1, e
    {
      match e {
        case Bin(_, x, y) =>
          r, fin' := CheckExprDeps(x, path, fin, ok, todo);
          if r.Some? {
            return;
          }
          ghost var f := fin';
          r, fin' := CheckExprDeps(y, path, f, ok, todo);
        case Not(x) =>
          r, fin' := CheckExprDeps(x, path, fin, ok, todo);
        case Cmp(_, a, b) =>
          assert a.id in Uses(e) && b.id in Uses(e);
          r, fin' := CheckDeps(a.id, path, fin, ok, todo);
          if r.Some? {
            return;
          }
          ghost var f := fin';
          r, fin' := CheckDeps(b.id, path, f, ok, todo);
        case Sym(s) =>
          assert s.id in Uses(e);
          r, fin' := CheckDeps(s.id, path, fin, ok, todo);
      }
    }

    /** The loop of `conf_parse` over all symbols: it reports no symbol exactly when there is no cycle, and every
        symbol it reports is on one. */
    method CheckAll(order: seq<nat>) returns (found: seq<nat>, ghost rank: seq<nat>)
      requires Shape() && forall i :: 0 <= i < |entries| ==> !entries[i].check && !entries[i].checked
      requires forall s :: s in order ==> s < |entries|
      requires forall s :: 0 <= s < |entries| && Edges(config.syms[s]) != {} ==> s in order
      modifies entries`check, entries`checked
      ensures forall x :: x in found ==> OnCycle(config, x)
      ensures found == [] <==> forall x :: !OnCycle(config, x)
      ensures found == [] ==> Ranked(config, rank)
      ensures forall i :: 0 <= i < |entries| ==> !entries[i].check
    {
      found := [];
      ghost var fin: seq<nat> := [];
      ghost var todo := set i: nat {:trigger entries[i]} | i < |entries|;
      var k := 0;
      while k < |order|
        invariant 0 <= k <= |order|
        invariant Ready([], fin, found == [], todo)
        invariant forall x :: x in found ==> OnCycle(config, x)
        invariant found == [] ==> forall j :: 0 <= j < k ==> order[j] in fin
      {
        var r;
        ghost var fin';
        assert order[k] in order;
        r, fin' := CheckDeps(order[k], [], fin, found == [], todo);
        if r.Some? {
          found := found + [r.value];
        }
        fin := fin';
        k := k + 1;
      }
      rank := [];
      if found == [] {
        rank := seq(|config.syms|, (s: nat) => RankOf(fin, s));
        OrderRanks(config, fin);
        forall x
          ensures !OnCycle(config, x)
        {
          RankedHasNoCycle(config, rank, x);
        }
      } else {
        assert OnCycle(config, found[0]);
      }
    }
  }

  /** Checking a table and, if it has no cycle, calculating symbols in any order: all of them then have their
      value in the only assignment that satisfies the table. */
  method Configure(c: Config, entries: seq<Entry>, symbols: seq<nat>, order: seq<nat>) returns (found: seq<nat>)
    requires WellFormed(c) && |entries| == |c.syms|
    requires forall i, j :: 0 <= i < j < |entries| ==> entries[i] != entries[j]
    requires forall i :: 0 <= i < |entries| ==> !entries[i].check && !entries[i].checked
    requires forall i :: 0 <= i < |entries| && c.syms[i].fixed.Some? ==>
               entries[i].valid && entries[i].curr == c.syms[i].fixed.value
    requires forall s :: s in symbols || s in order ==> s < |entries|
    requires forall s :: 0 <= s < |entries| && Edges(c.syms[s]) != {} ==> s in symbols
    modifies entries
    ensures found == [] <==> forall x :: !OnCycle(c, x)
    ensures found == [] ==> exists a: Assignment :: Solves(c, a)
    ensures found == [] ==> forall a: Assignment, s :: Solves(c, a) && s in order ==> entries[s].curr == a(s)
  {
    var checker := new Checker(c, entries);
    ghost var rank;
    found, rank := checker.CheckAll(symbols);
    if found == [] {
      var table := new Table(c, entries, rank);
      FinalSolves(c, rank);
      table.ClearAllValid();
      table.CalcAll(order);
    }
  }
}
