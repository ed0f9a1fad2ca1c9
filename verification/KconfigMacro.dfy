/**
 The macro expander of the Kconfig preprocessor: references `$(...)`, user-defined variables with arguments, and
 the counters that stop runaway recursion.
 */
module KconfigMacro {
  import opened Options

  /** The expansion, or the error with which the program exits. Undefined is no result: the program stores outside an
      array, and nothing is said about what follows. */
  datatype Result = Ok(text: string) | Error | Undefined

  /** The values of the pieces of a clause, or how expanding them ended. */
  datatype Values = All(vs: seq<string>) | Stopped(end: Result)

  datatype Variable = Variable(name: string, value: string, isRecursive: bool)

  /** The variables, and what the expander asks the outside: built-in functions, the environment, and a text read as
      a decimal number as a whole. */
  datatype Table = Table(
    vars: seq<Variable>,
    builtin: (string, seq<string>) -> Option<Result>,
    env: string -> Option<string>,
    number: string -> Option<nat>)

  const MAX_ARGS: nat := 16
  const MAX_COUNT: nat := 1000

  // ---- Parentheses and commas ----

  function Nest(c: char): int { if c == '(' then 1 else if c == ')' then -1 else 0 }

  /** The parenthesis depth after `s`. */
  function Depth(s: string): int { if s == [] then 0 else Nest(s[0]) + Depth(s[1..]) }

  ghost predicate Balanced(s: string) { Depth(s) == 0 && forall i :: 0 <= i <= |s| ==> Depth(s[..i]) >= 0 }

  /** The index of the `)` that closes the reference, when `nest` more are open; |s| if there is none. */
  function Close(s: string, nest: nat): (q: nat)
    ensures q <= |s|
  {
    if s == [] then 0
    else if s[0] == '(' then 1 + Close(s[1..], nest + 1)
    else if s[0] == ')' then if nest == 0 then 0 else 1 + Close(s[1..], nest - 1)
    else 1 + Close(s[1..], nest)
  }

  /** The pieces of a clause between commas outside parentheses; `nest` are open and `piece` has been read. */
  function SplitFrom(s: string, nest: int, piece: string): (ps: seq<string>)
    ensures |ps| > 0
    ensures forall p :: p in ps ==> |p| <= |piece| + |s|
  {
    if s == [] then [piece]
    else if nest == 0 && s[0] == ',' then [piece] + SplitFrom(s[1..], 0, [])
    else SplitFrom(s[1..], nest + Nest(s[0]), piece + [s[0]])
  }

  function Split(s: string): (ps: seq<string>)
    ensures |ps| > 0 && forall p :: p in ps ==> |p| <= |s|
  {
    SplitFrom(s, 0, [])
  }

  function Commas(ps: seq<string>): string
    requires |ps| > 0
  {
    if |ps| == 1 then ps[0] else ps[0] + "," + Commas(ps[1..])
  }

  /** The commas of a clause outside parentheses. */
  function TopCommas(s: string, nest: int): nat {
    if s == [] then 0
    else if nest == 0 && s[0] == ',' then 1 + TopCommas(s[1..], 0)
    else TopCommas(s[1..], nest + Nest(s[0]))
  }

  lemma {:induction false} SplitCount(s: string, nest: int, piece: string)
    ensures |SplitFrom(s, nest, piece)| == TopCommas(s, nest) + 1
  {
    if s != [] {
      if nest == 0 && s[0] == ',' {
        SplitCount(s[1..], 0, []);
      } else {
        SplitCount(s[1..], nest + Nest(s[0]), piece + [s[0]]);
      }
    }
  }

  /** How splitting a clause ends: `n` places are used, there are too many pieces, or one is stored outside. */
  datatype Splitting = Places(n: nat) | TooMany | Outside

  // ---- Expansion with counters ----

  function Append(a: Result, b: Result): Result {
    if !a.Ok? then a else if !b.Ok? then b else Ok(a.text + b.text)
  }

  /** The first variable of this name; the number of variables if there is none. */
  function Lookup(vars: seq<Variable>, name: string): (i: nat)
    ensures i <= |vars|
  {
    if vars == [] then 0 else if vars[0].name == name then 0 else 1 + Lookup(vars[1..], name)
  }

  /** How many more times variables can be entered. */
  function Budget(counts: seq<nat>): nat {
    if counts == [] then 0 else (if counts[0] <= MAX_COUNT then MAX_COUNT + 1 - counts[0] else 0) + Budget(counts[1..])
  }

  lemma {:induction false} EnterCosts(counts: seq<nat>, i: nat)
    requires i < |counts| && counts[i] <= MAX_COUNT
    ensures Budget(counts[i := counts[i] + 1]) == Budget(counts) - 1
  {
    var next := counts[i := counts[i] + 1];
    if i == 0 {
      assert next[1..] == counts[1..];
    } else {
      EnterCosts(counts[1..], i - 1);
      assert next[1..] == counts[1..][i - 1 := counts[i] + 1];
    }
  }

  /** The expansion of a text while variable `i` is being expanded `counts[i]` times. */
  function Expand(t: Table, counts: seq<nat>, s: string, args: seq<string>): Result
    requires |counts| == |t.vars|
    decreases Budget(counts), |s|, 1
  {
    if s == [] then Ok([])
    else if s[0] != '$' then Append(Ok([s[0]]), Expand(t, counts, s[1..], args))
    else if |s| == 1 || s[1] != '(' then Append(Ok("$"), Expand(t, counts, s[1..], args))
    else
      var q := Close(s[2..], 0);
      if q == |s| - 2 then Error
      else Append(Clause(t, counts, s[2..2 + q], args), Expand(t, counts, s[3 + q..], args))
  }

  /** The value of the text between `$(` and `)`. */
  function Clause(t: Table, counts: seq<nat>, c: string, args: seq<string>): Result
    requires |counts| == |t.vars|
    decreases Budget(counts), |c|, 3
  {
    if IsArgument(t, c, args) then Ok(args[t.number(c).value - 1])
    else
      var ps := Split(c);
      if |ps| > MAX_ARGS + 1 then Error
      else if |ps| > MAX_ARGS then Undefined
      else
        match Pieces(t, counts, c, ps, args)
        case Stopped(end) => end
        case All(vs) => Call(t, counts, vs[0], vs[1..])
  }

  predicate IsArgument(t: Table, c: string, args: seq<string>) {
    t.number(c).Some? && 0 < t.number(c).value <= |args|
  }

  /** The values of the pieces of a clause. */
  function Pieces(t: Table, counts: seq<nat>, c: string, ps: seq<string>, args: seq<string>): (vs: Values)
    requires |counts| == |t.vars| && forall p :: p in ps ==> |p| <= |c|
    ensures if vs.All? then |vs.vs| == |ps| else !vs.end.Ok?
    decreases Budget(counts), |c|, 2, |ps|
  {
    if ps == [] then All([])
    else
      var v := Expand(t, counts, ps[0], args);
      if !v.Ok? then Stopped(v) else Before(v.text, Pieces(t, counts, c, ps[1..], args))
  }

  function Before(v: string, vs: Values): Values { if vs.All? then All([v] + vs.vs) else vs }

  /** The value of a variable, a built-in function or an environment variable. */
  function Call(t: Table, counts: seq<nat>, name: string, args: seq<string>): Result
    requires |counts| == |t.vars|
    decreases Budget(counts), 0, 0
  {
    var i := Lookup(t.vars, name);
    if i < |t.vars| then
      if (args == [] && counts[i] > 0) || counts[i] > MAX_COUNT then Error
      else if !t.vars[i].isRecursive then Ok(t.vars[i].value)
      else
        EnterCosts(counts, i);
        Expand(t, counts[i := counts[i] + 1], t.vars[i].value, args)
    else if t.builtin(name, args).Some? then t.builtin(name, args).value
    else if args == [] && t.env(name).Some? then Ok(t.env(name).value)
    else Ok([])
  }

  // ---- Clauses are balanced, and so are their pieces ----

  lemma {:induction false} DepthPrefix(s: string, i: nat)
    requires 0 < i <= |s|
    ensures Depth(s[..i]) == Nest(s[0]) + Depth(s[1..][..i - 1])
  {
    assert s[..i][1..] == s[1..][..i - 1];
  }

  lemma {:induction false} DepthAdds(a: string, b: string)
    ensures Depth(a + b) == Depth(a) + Depth(b)
  {
    if a == [] {
      assert a + b == b;
    } else {
      assert (a + b)[1..] == a[1..] + b;
      DepthAdds(a[1..], b);
    }
  }

  /** Before the closing parenthesis the depth never falls below where it started, and it ends there. */
  lemma {:induction false} CloseDepth(s: string, nest: nat, i: nat)
    requires var q := Close(s, nest); q < |s| && i <= q
    ensures s[Close(s, nest)] == ')'
    ensures nest + Depth(s[..i]) >= 0 && nest + Depth(s[..Close(s, nest)]) == 0
  {
    var q := Close(s, nest);
    if q > 0 {
      var nest' := nest + Nest(s[0]);
      CloseDepth(s[1..], nest', if i > 0 then i - 1 else 0);
      DepthPrefix(s, q);
      if i > 0 {
        DepthPrefix(s, i);
      }
    }
  }

  /** The text handed to `eval_clause` is balanced. */
  lemma {:induction false} ClauseIsBalanced(s: string)
    requires Close(s, 0) < |s|
    ensures Balanced(s[..Close(s, 0)]) && s[Close(s, 0)] == ')'
  {
    var q := Close(s, 0);
    forall i | 0 <= i <= q
      ensures Depth(s[..q][..i]) >= 0
    {
      CloseDepth(s, 0, i);
      assert s[..q][..i] == s[..i];
    }
    CloseDepth(s, 0, 0);
  }

  /** The parenthesis found is the first that closes more than was opened. */
  lemma {:induction false} CloseIsFirst(s: string, nest: nat, q: nat)
    requires q < |s| && s[q] == ')' && nest + Depth(s[..q]) == 0
    requires forall i :: 0 <= i <= q ==> nest + Depth(s[..i]) >= 0
    ensures Close(s, nest) == q
  {
    if q > 0 {
      DepthPrefix(s, 1);
      assert s[1..][..0] == [];
      var nest' := nest + Nest(s[0]);
      forall i | 0 <= i <= q - 1
        ensures nest' + Depth(s[1..][..i]) >= 0
      {
        DepthPrefix(s, i + 1);
      }
      DepthPrefix(s, q);
      CloseIsFirst(s[1..], nest', q - 1);
    }
  }

  lemma {:induction false} CommasCons(piece: string, rest: seq<string>, s: string)
    requires |rest| > 0 && s != [] && s[0] == ',' && Commas(rest) == [] + s[1..]
    ensures Commas([piece] + rest) == piece + s
  {
    assert ([piece] + rest)[1..] == rest;
    assert s == "," + s[1..];
  }

  /** Joining the pieces with commas restores the clause. */
  lemma {:induction false} SplitJoins(s: string, nest: int, piece: string)
    ensures Commas(SplitFrom(s, nest, piece)) == piece + s
  {
    if s == [] {
      assert piece + s == piece;
    } else if nest == 0 && s[0] == ',' {
      SplitJoins(s[1..], 0, []);
      CommasCons(piece, SplitFrom(s[1..], 0, []), s);
    } else {
      SplitJoins(s[1..], nest + Nest(s[0]), piece + [s[0]]);
      assert piece + [s[0]] + s[1..] == piece + s;
    }
  }

  lemma {:induction false} ClauseRestored(c: string)
    ensures Commas(Split(c)) == c
  {
    SplitJoins(c, 0, []);
    var none: string := [];
    assert none + c == c;
  }

  /** `piece` has not closed more than it opened. */
  ghost predicate Open(piece: string, nest: int) {
    Depth(piece) == nest && forall i :: 0 <= i <= |piece| ==> Depth(piece[..i]) >= 0
  }

  /** What follows never closes more than is open, and in the end closes all. */
  ghost predicate Closes(s: string, nest: int) {
    nest + Depth(s) == 0 && forall i :: 0 <= i <= |s| ==> nest + Depth(s[..i]) >= 0
  }

  lemma {:induction false} OpenExtends(piece: string, nest: int, c: char)
    requires Open(piece, nest) && nest + Nest(c) >= 0
    ensures Open(piece + [c], nest + Nest(c))
  {
    DepthAdds(piece, [c]);
    assert [c][1..] == [];
    forall i | 0 <= i <= |piece| + 1
      ensures Depth((piece + [c])[..i]) >= 0
    {
      if i <= |piece| {
        assert (piece + [c])[..i] == piece[..i];
      } else {
        assert (piece + [c])[..i] == piece + [c];
      }
    }
  }

  lemma {:induction false} ClosesRest(s: string, nest: int)
    requires s != [] && Closes(s, nest)
    ensures Closes(s[1..], nest + Nest(s[0])) && nest + Nest(s[0]) >= 0
  {
    forall i | 0 <= i <= |s| - 1
      ensures nest + Nest(s[0]) + Depth(s[1..][..i]) >= 0
    {
      DepthPrefix(s, i + 1);
    }
    assert s[1..][..0] == [];
  }

  lemma {:induction false} SplitBalanced(s: string, nest: int, piece: string)
    requires Open(piece, nest) && Closes(s, nest)
    ensures forall p :: p in SplitFrom(s, nest, piece) ==> Balanced(p)
  {
    if s != [] {
      ClosesRest(s, nest);
      if nest == 0 && s[0] == ',' {
        assert Open([], 0);
        SplitBalanced(s[1..], 0, []);
      } else {
        OpenExtends(piece, nest, s[0]);
        SplitBalanced(s[1..], nest + Nest(s[0]), piece + [s[0]]);
      }
    }
  }

  /** The pieces of a balanced clause are balanced. */
  lemma {:induction false} PiecesAreBalanced(c: string)
    requires Balanced(c)
    ensures forall p :: p in Split(c) ==> Balanced(p)
  {
    assert Open([], 0);
    SplitBalanced(c, 0, []);
  }

  // ---- Expansion without counters ----

  /** What an expansion means, with `depth` variables at most inside one another; None beyond that. */
  function Plain(t: Table, depth: nat, s: string, args: seq<string>): Option<Result>
    decreases depth, |s|, 1
  {
    if s == [] then Some(Ok([]))
    else if s[0] != '$' then AppendAll(Some(Ok([s[0]])), Plain(t, depth, s[1..], args))
    else if |s| == 1 || s[1] != '(' then AppendAll(Some(Ok("$")), Plain(t, depth, s[1..], args))
    else
      var q := Close(s[2..], 0);
      if q == |s| - 2 then Some(Error)
      else AppendAll(PlainClause(t, depth, s[2..2 + q], args), Plain(t, depth, s[3 + q..], args))
  }

  function AppendAll(a: Option<Result>, b: Option<Result>): Option<Result> {
    if a.None? || b.None? then None else Some(Append(a.value, b.value))
  }

  function PlainClause(t: Table, depth: nat, c: string, args: seq<string>): Option<Result>
    decreases depth, |c|, 3
  {
    if IsArgument(t, c, args) then Some(Ok(args[t.number(c).value - 1]))
    else
      var ps := Split(c);
      if |ps| > MAX_ARGS + 1 then Some(Error)
      else if |ps| > MAX_ARGS then Some(Undefined)
      else
        match PlainPieces(t, depth, c, ps, args)
        case None => None
        case Some(Stopped(end)) => Some(end)
        case Some(All(vs)) => PlainCall(t, depth, vs[0], vs[1..])
  }

  /** None beyond the depth. */
  function PlainPieces(t: Table, depth: nat, c: string, ps: seq<string>, args: seq<string>): (vs: Option<Values>)
    requires forall p :: p in ps ==> |p| <= |c|
    ensures vs.Some? && vs.value.All? ==> |vs.value.vs| == |ps|
    decreases depth, |c|, 2, |ps|
  {
    if ps == [] then Some(All([]))
    else
      match (Plain(t, depth, ps[0], args), PlainPieces(t, depth, c, ps[1..], args))
      case (Some(v), Some(vs)) => Some(if v.Ok? then Before(v.text, vs) else Stopped(v))
      case (_, _) => None
  }

  function PlainCall(t: Table, depth: nat, name: string, args: seq<string>): Option<Result>
    decreases depth, 0, 0
  {
    var i := Lookup(t.vars, name);
    if i < |t.vars| then
      if !t.vars[i].isRecursive then Some(Ok(t.vars[i].value))
      else if depth == 0 then None
      else Plain(t, depth - 1, t.vars[i].value, args)
    else if t.builtin(name, args).Some? then Some(t.builtin(name, args).value)
    else if args == [] && t.env(name).Some? then Some(Ok(t.env(name).value))
    else Some(Ok([]))
  }

  /** The counters only ever stop an expansion: what they let through is what the expansion means. */
  lemma {:induction false} CountersOnlyStop(t: Table, counts: seq<nat>, s: string, args: seq<string>)
    requires |counts| == |t.vars| && Expand(t, counts, s, args).Ok?
    ensures Plain(t, Budget(counts), s, args) == Some(Expand(t, counts, s, args))
    decreases Budget(counts), |s|, 1
  {
    if s == [] {
    } else if s[0] != '$' || |s| == 1 || s[1] != '(' {
      CountersOnlyStop(t, counts, s[1..], args);
    } else {
      var q := Close(s[2..], 0);
      ClauseOnlyStops(t, counts, s[2..2 + q], args);
      CountersOnlyStop(t, counts, s[3 + q..], args);
    }
  }

  lemma {:induction false} ClauseOnlyStops(t: Table, counts: seq<nat>, c: string, args: seq<string>)
    requires |counts| == |t.vars| && Clause(t, counts, c, args).Ok?
    ensures PlainClause(t, Budget(counts), c, args) == Some(Clause(t, counts, c, args))
    decreases Budget(counts), |c|, 3
  {
    if !IsArgument(t, c, args) {
      var ps := Split(c);
      var vs := Pieces(t, counts, c, ps, args).vs;
      PiecesOnlyStop(t, counts, c, ps, args);
      CallOnlyStops(t, counts, vs[0], vs[1..]);
    }
  }

  lemma {:induction false} PiecesOnlyStop(t: Table, counts: seq<nat>, c: string, ps: seq<string>, args: seq<string>)
    requires |counts| == |t.vars| && (forall p :: p in ps ==> |p| <= |c|) && Pieces(t, counts, c, ps, args).All?
    ensures PlainPieces(t, Budget(counts), c, ps, args) == Some(Pieces(t, counts, c, ps, args))
    decreases Budget(counts), |c|, 2, |ps|
  {
    if ps != [] {
      CountersOnlyStop(t, counts, ps[0], args);
      PiecesOnlyStop(t, counts, c, ps[1..], args);
    }
  }

  lemma {:induction false} CallOnlyStops(t: Table, counts: seq<nat>, name: string, args: seq<string>)
    requires |counts| == |t.vars| && Call(t, counts, name, args).Ok?
    ensures PlainCall(t, Budget(counts), name, args) == Some(Call(t, counts, name, args))
    decreases Budget(counts), 0, 0
  {
    var i := Lookup(t.vars, name);
    if i < |t.vars| && t.vars[i].isRecursive {
      EnterCosts(counts, i);
      CountersOnlyStop(t, counts[i := counts[i] + 1], t.vars[i].value, args);
    }
  }

  // ---- The seventeenth piece ----

  lemma {:induction false} CommasOnly(k: nat)
    ensures TopCommas(seq(k, _ => ','), 0) == k
  {
    if k > 0 {
      var s := seq(k, _ => ',');
      assert s[1..] == seq(k - 1, _ => ',');
      CommasOnly(k - 1);
    }
  }

  /** A clause that is no argument number gets to the store outside the array if and only if it has just as many commas
      outside parentheses as the array has places. */
  lemma {:induction false} OutsideExactly(t: Table, counts: seq<nat>, c: string, args: seq<string>)
    requires |counts| == |t.vars| && !IsArgument(t, c, args)
    ensures TopCommas(c, 0) == MAX_ARGS ==> Clause(t, counts, c, args) == Undefined
    ensures TopCommas(c, 0) > MAX_ARGS ==> Clause(t, counts, c, args) == Error
    ensures TopCommas(c, 0) < MAX_ARGS ==>
              Clause(t, counts, c, args) ==
              match Pieces(t, counts, c, Split(c), args)
              case Stopped(end) => end
              case All(vs) => Call(t, counts, vs[0], vs[1..])
  {
    SplitCount(c, 0, []);
  }

  /** Sixteen commas do it. */
  lemma {:induction false} SixteenCommas(t: Table, counts: seq<nat>, args: seq<string>)
    requires |counts| == |t.vars| && t.number(",,,,,,,,,,,,,,,,").None?
    ensures Clause(t, counts, ",,,,,,,,,,,,,,,,", args) == Undefined
  {
    CommasOnly(16);
    assert seq(16, _ => ',') == ",,,,,,,,,,,,,,,,";
    OutsideExactly(t, counts, ",,,,,,,,,,,,,,,,", args);
  }

  // ---- Steps of the cursor loops ----

  lemma {:induction false} AppendAssociates(a: string, b: Result, r: Result)
    ensures b.Ok? ==> Append(Ok(a), Append(b, r)) == Append(Ok(a + b.text), r)
    ensures !b.Ok? ==> Append(Ok(a), Append(b, r)) == b
  {
    if b.Ok? && r.Ok? {
      assert a + (b.text + r.text) == a + b.text + r.text;
    }
  }

  lemma {:induction false} TextStart(t: Table, counts: seq<nat>, s: string, args: seq<string>)
    requires |counts| == |t.vars|
    ensures var none: string := [];
            Expand(t, counts, s, args) == Append(Ok(none + s[0..0]), Expand(t, counts, s[0..], args))
  {
    var none: string := [];
    assert s[0..] == s && none + s[0..0] == none;
    var r := Expand(t, counts, s, args);
    if r.Ok? {
      assert none + r.text == r.text;
    }
  }

  lemma {:induction false} NothingExpands(t: Table, counts: seq<nat>, args: seq<string>)
    requires |counts| == |t.vars|
    ensures forall a: string :: Append(Ok(a), Expand(t, counts, [], args)) == Ok(a)
  {
    forall a: string
      ensures Append(Ok(a), Expand(t, counts, [], args)) == Ok(a)
    {
      assert a + [] == a;
    }
  }

  lemma {:induction false} PlainStep(t: Table, counts: seq<nat>, s: string, p: nat, inp: nat, out: string,
          args: seq<string>)
    requires |counts| == |t.vars| && inp <= p < |s| && s[p] != '$'
    ensures Append(Ok(out + s[inp..p]), Expand(t, counts, s[p..], args))
            == Append(Ok(out + s[inp..p + 1]), Expand(t, counts, s[p + 1..], args))
  {
    assert s[p..][1..] == s[p + 1..];
    AppendAssociates(out + s[inp..p], Ok([s[p]]), Expand(t, counts, s[p + 1..], args));
    assert out + s[inp..p] + [s[p]] == out + s[inp..p + 1];
  }

  /** A `$` without a parenthesis stands for itself. */
  lemma {:induction false} DollarAlone(t: Table, counts: seq<nat>, s: string, p: nat, args: seq<string>)
    requires |counts| == |t.vars| && 0 < p <= |s| && s[p - 1] == '$' && (p == |s| || s[p] != '(')
    ensures Expand(t, counts, s[p - 1..], args) == Append(Ok("$"), Expand(t, counts, s[p..], args))
  {
    assert s[p - 1..][1..] == s[p..];
  }

  /** A reference that ends at position `q`. */
  lemma {:induction false} DollarReference(t: Table, counts: seq<nat>, s: string, p: nat, q: nat, args: seq<string>)
    requires |counts| == |t.vars| && 0 < p < |s| && s[p - 1] == '$' && s[p] == '(' && q == p + 1 + Close(s[p + 1..], 0)
    ensures q == |s| ==> Expand(t, counts, s[p - 1..], args) == Error
    ensures q < |s| ==>
              Expand(t, counts, s[p - 1..], args) ==
              Append(Clause(t, counts, s[p + 1..q], args), Expand(t, counts, s[q + 1..], args))
    ensures q < |s| && !Clause(t, counts, s[p + 1..q], args).Ok? ==>
              Expand(t, counts, s[p - 1..], args) == Clause(t, counts, s[p + 1..q], args)
  {
    var rest := s[p - 1..];
    assert rest[2..] == s[p + 1..];
    assert q < |s| ==> rest[2..2 + (q - p - 1)] == s[p + 1..q] && rest[3 + (q - p - 1)..] == s[q + 1..];
  }

  lemma {:induction false} PiecesStep(t: Table, counts: seq<nat>, c: string, ps: seq<string>, i: nat,
          vs: seq<string>, args: seq<string>)
    requires |counts| == |t.vars| && (forall p :: p in ps ==> |p| <= |c|) && i < |ps|
    ensures var (v, now) := (Expand(t, counts, ps[i], args), Pieces(t, counts, c, ps[i..], args));
            && (!v.Ok? ==> now == Stopped(v))
            && (v.Ok? ==> After(vs, now) == After(vs + [v.text], Pieces(t, counts, c, ps[i + 1..], args)))
  {
    assert ps[i..][0] == ps[i] && ps[i..][1..] == ps[i + 1..];
    var rest := Pieces(t, counts, c, ps[i + 1..], args);
    if Expand(t, counts, ps[i], args).Ok? && rest.All? {
      var v := Expand(t, counts, ps[i], args).text;
      assert vs + ([v] + rest.vs) == vs + [v] + rest.vs;
    }
  }

  lemma {:induction false} PiecesStart(t: Table, counts: seq<nat>, c: string, ps: seq<string>, args: seq<string>)
    requires |counts| == |t.vars| && forall p :: p in ps ==> |p| <= |c|
    ensures var now := Pieces(t, counts, c, ps, args); ps[0..] == ps && After([], now) == now
  {
    var now := Pieces(t, counts, c, ps, args);
    if now.All? {
      assert [] + now.vs == now.vs;
    }
  }

  lemma {:induction false} PiecesEnd(t: Table, counts: seq<nat>, c: string, ps: seq<string>, vs: seq<string>,
          args: seq<string>)
    requires |counts| == |t.vars| && forall p :: p in ps ==> |p| <= |c|
    ensures After(vs, Pieces(t, counts, c, ps[|ps|..], args)) == All(vs)
  {
    assert ps[|ps|..] == [] && vs + [] == vs;
  }

  lemma {:induction false} AfterStop(vs: seq<string>, end: Result)
    ensures After(vs, Stopped(end)) == Stopped(end)
  {
  }

  function After(vs: seq<string>, r: Values): Values {
    if r.All? then All(vs + r.vs) else r
  }

  lemma {:induction false} SplitIsExact(c: string)
    ensures Commas(Split(c)) == c && (Balanced(c) ==> forall p :: p in Split(c) ==> Balanced(p))
  {
    ClauseRestored(c);
    if Balanced(c) {
      PiecesAreBalanced(c);
    }
  }

  lemma {:induction false} SplitStart(c: string)
    ensures Split(c) == [] + SplitFrom(c[0..], 0, c[0..0])
  {
    var ps := SplitFrom(c, 0, []);
    var none: seq<string> := [];
    assert c[0..] == c;
    assert c[0..0] == [];
    assert none + ps == ps;
  }

  lemma {:induction false} SplitEnd(c: string, nest: int, piece: string)
    ensures SplitFrom(c[|c|..], nest, piece) == [piece]
  {
    assert c[|c|..] == [];
  }

  lemma {:induction false} SplitNonempty(s: string, piece: string)
    ensures |SplitFrom(s, 0, piece)| > 0
  {
  }

  lemma {:induction false} SliceGrows(c: string, prev: nat, p: nat)
    requires prev <= p < |c|
    ensures c[prev..p] + [c[p]] == c[prev..p + 1]
    ensures c[p..][0] == c[p] && c[p..][1..] == c[p + 1..]
  {
  }

  lemma {:induction false} SplitStep(c: string, p: nat, prev: nat, nest: int, pieces: seq<string>)
    requires prev <= p < |c|
    ensures nest == 0 && c[p] == ',' ==>
              pieces + SplitFrom(c[p..], nest, c[prev..p]) ==
              pieces + [c[prev..p]] + SplitFrom(c[p + 1..], 0, c[p + 1..p + 1])
    ensures nest != 0 || c[p] != ',' ==>
              SplitFrom(c[p..], nest, c[prev..p]) == SplitFrom(c[p + 1..], nest + Nest(c[p]), c[prev..p + 1])
  {
    var rest, piece := c[p..], c[prev..p];
    SliceGrows(c, prev, p);
    if nest == 0 && c[p] == ',' {
      assert c[p + 1..p + 1] == [];
      var others := SplitFrom(c[p + 1..], 0, []);
      assert SplitFrom(rest, nest, piece) == [piece] + others;
      assert pieces + ([piece] + others) == pieces + [piece] + others;
    }
  }

  lemma {:induction false} FoundIsBalanced(s: string, start: nat)
    requires start <= |s|
    ensures var q := start + Close(s[start..], 0);
            q < |s| ==> Balanced(s[start..q]) && s[q] == ')'
  {
    var q := Close(s[start..], 0);
    if q < |s| - start {
      ClauseIsBalanced(s[start..]);
      hide Balanced, Close, Depth;
      assert s[start..][q] == s[start + q];
      assert s[start..][..q] == s[start..start + q];
    }
  }

  lemma {:induction false} CloseStep(s: string, q: nat, nest: nat)
    requires q < |s|
    ensures s[q] == ')' && nest == 0 ==> Close(s[q..], nest) == 0
    ensures s[q] != ')' || nest > 0 ==> Close(s[q..], nest) == 1 + Close(s[q + 1..], nest + Nest(s[q]))
  {
    assert s[q..][1..] == s[q + 1..];
  }

  // ---- The expander ----

  /** The variables with their counters (`exp_count`). */
  class Expander {
    const table: Table
    var counts: seq<nat>

    constructor (t: Table)
      ensures table == t && Valid() && forall i :: 0 <= i < |counts| ==> counts[i] == 0
    {
      table, counts := t, seq(|t.vars|, (i: nat) => 0);
    }

    ghost predicate Valid()
      reads this
    {
      |counts| == |table.vars|
    }

    /** `expand_string_with_args`: the cursor `p` runs over the text; `inp` is where the text not yet copied starts. */
    method ExpandString(s: string, args: seq<string>) returns (r: Result)
      requires Valid()
      modifies this
      ensures Valid() && r == old(Expand(table, counts, s, args)) && (r.Ok? ==> counts == old(counts))
      decreases Budget(counts), |s|, 1
    {
      var out: string := [];
      var p, inp := 0, 0;
      TextStart(table, counts, s, args);
      hide Expand, Budget, Clause, Close, Split, SplitFrom, Lookup;
      while p < |s|
        invariant 0 <= inp <= p <= |s| && counts == old(counts)
        invariant Expand(table, counts, s, args) == Append(Ok(out + s[inp..p]), Expand(table, counts, s[p..], args))
        decreases |s| - p
      {
        if s[p] == '$' {
          ghost var done := out + s[inp..p];
          ghost var cs := counts;
          var at := p;
          var expansion;
          expansion, p := ExpandDollar(s, p + 1, args);
          AppendAssociates(done, expansion, Expand(table, cs, s[p..], args));
          if !expansion.Ok? {
            return expansion;
          }
          out := out + s[inp..at] + expansion.text;
          inp := p;
          assert out + s[inp..p] == done + expansion.text;
        } else {
          PlainStep(table, counts, s, p, inp, out, args);
          p := p + 1;
        }
      }
      NothingExpands(table, counts, args);
      assert s[p..] == [];
      return Ok(out + s[inp..p]);
    }

    /** `expand_dollar_with_args`: `p` is after the `$`; `p'` is after what was expanded. */
    method ExpandDollar(s: string, p: nat, args: seq<string>) returns (r: Result, p': nat)
      requires Valid() && 0 < p <= |s| && s[p - 1] == '$'
      modifies this
      ensures Valid() && p <= p' <= |s|
      ensures if r.Ok? then
                old(Expand(table, counts, s[p - 1..], args)) == Append(r, old(Expand(table, counts, s[p'..], args)))
              else old(Expand(table, counts, s[p - 1..], args)) == r
      ensures r.Ok? ==> counts == old(counts)
      decreases Budget(counts), |s|, 0
    {
      hide Expand, Clause, Close, Budget, Depth, Commas, Pieces, Call, Split, SplitFrom, Append, Lookup, IsArgument;
      if p == |s| || s[p] != '(' {
        DollarAlone(table, counts, s, p, args);
        return Ok("$"), p;
      }
      var q := FindClose(s, p + 1);
      DollarReference(table, counts, s, p, q, args);
      if q == |s| {
        return Error, q;
      }
      p' := q + 1;
      r := EvalClause(s[p + 1..q], args);
    }

    /** The loop that looks for the closing parenthesis. */
    method FindClose(s: string, start: nat) returns (q: nat)
      requires start <= |s|
      ensures q == start + Close(s[start..], 0) <= |s|
      ensures q < |s| ==> Balanced(s[start..q]) && s[q] == ')'
    {
      FoundIsBalanced(s, start);
      q := start;
      var nest: nat := 0;
      while q < |s|
        invariant start <= q <= |s|
        invariant start + Close(s[start..], 0) == q + Close(s[q..], nest)
      {
        CloseStep(s, q, nest);
        hide Close;
        if s[q] == '(' {
          nest := nest + 1;
        } else if s[q] == ')' {
          if nest == 0 {
            return;
          }
          nest := nest - 1;
        }
        q := q + 1;
      }
    }

    /** `eval_clause`. */
    method EvalClause(c: string, args: seq<string>) returns (r: Result)
      requires Valid()
      modifies this
      ensures Valid() && r == old(Clause(table, counts, c, args)) && (r.Ok? ==> counts == old(counts))
      decreases Budget(counts), |c|, 4
    {
      if IsArgument(table, c, args) {
        return Ok(args[table.number(c).value - 1]);
      }
      var argv := new string[MAX_ARGS];
      var split := SplitClause(c, argv);
      hide Split, Expand, Call, TopCommas;
      if split.TooMany? {
        return Error;
      } else if split.Outside? {
        return Undefined;
      }
      var vs := ExpandPieces(c, argv[..split.n], args);
      if vs.Stopped? {
        return vs.end;
      }
      hide Clause;
      r := CallByName(vs.vs[0], vs.vs[1..]);
    }

    /** The loop of `eval_clause` that expands the name and the arguments. */
    method ExpandPieces(c: string, ps: seq<string>, args: seq<string>) returns (r: Values)
      requires Valid() && forall p :: p in ps ==> |p| <= |c|
      modifies this
      ensures Valid() && r == old(Pieces(table, counts, c, ps, args)) && (r.All? ==> counts == old(counts))
      decreases Budget(counts), |c|, 3
    {
      var vs: seq<string> := [];
      var i := 0;
      PiecesStart(table, counts, c, ps, args);
      hide Pieces, Expand, Budget, After;
      while i < |ps|
        invariant 0 <= i <= |ps| && counts == old(counts)
        invariant Pieces(table, counts, c, ps, args) == After(vs, Pieces(table, counts, c, ps[i..], args))
      {
        PiecesStep(table, counts, c, ps, i, vs, args);
        var v := ExpandString(ps[i], args);
        if !v.Ok? {
          AfterStop(vs, v);
          return Stopped(v);
        }
        vs := vs + [v.text];
        i := i + 1;
      }
      PiecesEnd(table, counts, c, ps, vs, args);
      return All(vs);
    }

    /** The splitting loop of `eval_clause`, which stores the pieces in the array of sixteen places. Every store is in
        one of them unless the clause has exactly sixteen commas outside parentheses; with more the loop stops with an
        error before it gets so far. */
    method SplitClause(c: string, argv: array<string>) returns (r: Splitting)
      requires argv.Length == MAX_ARGS
      modifies argv
      ensures r.Outside? <==> TopCommas(c, 0) == MAX_ARGS
      ensures r.TooMany? <==> TopCommas(c, 0) > MAX_ARGS
      ensures r.Places? ==> r.n == |Split(c)| <= MAX_ARGS && argv[..r.n] == Split(c)
      ensures |Split(c)| == TopCommas(c, 0) + 1 && Commas(Split(c)) == c
      ensures Balanced(c) ==> forall p :: p in Split(c) ==> Balanced(p)
    {
      SplitIsExact(c);
      SplitCount(c, 0, []);
      var argc := 0;
      var nest := 0;
      var prev, p := 0, 0;
      SplitStart(c);
      hide Split, SplitFrom, Balanced, Commas, TopCommas;
      assert argv[..argc] == [];
      while p < |c|
        invariant 0 <= prev <= p <= |c| && 0 <= argc <= MAX_ARGS
        invariant Split(c) == argv[..argc] + SplitFrom(c[p..], nest, c[prev..p])
      {
        SplitStep(c, p, prev, nest, argv[..argc]);
        if nest == 0 && c[p] == ',' {
          if argc >= MAX_ARGS {
            SplitNonempty(c[p + 1..], c[p + 1..p + 1]);
            return TooMany;
          }
          argc := Store(argv, argc, c[prev..p]);
          prev := p + 1;
        } else if c[p] == '(' {
          nest := nest + 1;
        } else if c[p] == ')' {
          nest := nest - 1;
        }
        p := p + 1;
      }
      SplitEnd(c, nest, c[prev..p]);
      if argc == MAX_ARGS {
        return Outside;
      }
      argc := Store(argv, argc, c[prev..p]);
      return Places(argc);
    }

    /** `new_argv[new_argc++] = prev`. */
    method Store(argv: array<string>, argc: nat, piece: string) returns (next: nat)
      requires argc < argv.Length
      modifies argv
      ensures next == argc + 1 && argv[..next] == old(argv[..argc]) + [piece]
    {
      argv[argc] := piece;
      next := argc + 1;
      assert argv[..argc] == old(argv[..argc]);
    }

    /** Variables first, then built-in functions, then the environment. */
    method CallByName(name: string, args: seq<string>) returns (r: Result)
      requires Valid()
      modifies this
      ensures Valid() && r == old(Call(table, counts, name, args)) && (r.Ok? ==> counts == old(counts))
      decreases Budget(counts), 0, 2
    {
      var res := VariableExpand(name, args);
      if res.Some? {
        return res.value;
      }
      if table.builtin(name, args).Some? {
        return table.builtin(name, args).value;
      }
      if args == [] && table.env(name).Some? {
        return Ok(table.env(name).value);
      }
      return Ok([]);
    }

    /** `variable_expand`: None if there is no such variable. */
    method VariableExpand(name: string, args: seq<string>) returns (r: Option<Result>)
      requires Valid()
      modifies this
      ensures Valid() && (r.None? <==> Lookup(table.vars, name) == |table.vars|)
      ensures r.Some? ==> r.value == old(Call(table, counts, name, args))
      ensures r.None? || r.value.Ok? ==> counts == old(counts)
      decreases Budget(counts), 0, 1
    {
      var i := Lookup(table.vars, name);
      if i == |table.vars| {
        return None;
      }
      if args == [] && counts[i] > 0 {
        return Some(Error);
      }
      if counts[i] > MAX_COUNT {
        return Some(Error);
      }
      ghost var before := counts;
      EnterCosts(counts, i);
      counts := counts[i := counts[i] + 1];
      var res;
      if table.vars[i].isRecursive {
        res := ExpandString(table.vars[i].value, args);
      } else {
        res := Ok(table.vars[i].value);
      }
      if res.Ok? {
        counts := counts[i := counts[i] - 1];
        assert counts == before;
      }
      return Some(res);
    }
  }
}
