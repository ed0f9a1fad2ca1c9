/**
 What references expand to: texts, arguments, variables, functions and the environment.
 */
module KconfigMacroMeaning {
  import opened Options
  import opened KconfigMacro

  /** A text without references expands to itself. */
  lemma {:induction false} TextIsItself(t: Table, counts: seq<nat>, s: string, rest: string, args: seq<string>)
    requires |counts| == |t.vars| && '$' !in s
    ensures Expand(t, counts, s + rest, args) == Append(Ok(s), Expand(t, counts, rest, args))
  {
    var r := Expand(t, counts, rest, args);
    if s == [] {
      assert s + rest == rest;
      assert r.Ok? ==> s + r.text == r.text;
    } else {
      OneCharacter(t, counts, s, rest, args);
      TextIsItself(t, counts, s[1..], rest, args);
      assert r.Ok? ==> [s[0]] + (s[1..] + r.text) == s + r.text;
    }
    hide Expand;
  }

  lemma {:induction false} OneCharacter(t: Table, counts: seq<nat>, s: string, rest: string, args: seq<string>)
    requires |counts| == |t.vars| && s != [] && s[0] != '$'
    ensures Expand(t, counts, s + rest, args) == Append(Ok([s[0]]), Expand(t, counts, s[1..] + rest, args))
  {
    assert (s + rest)[1..] == s[1..] + rest;
  }

  lemma {:induction false} PlainText(t: Table, counts: seq<nat>, s: string, args: seq<string>)
    requires |counts| == |t.vars| && '$' !in s
    ensures Expand(t, counts, s, args) == Ok(s)
  {
    var none: string := [];
    TextIsItself(t, counts, s, none, args);
    assert s + none == s;
  }

  /** A balanced text between `$(` and `)` is one clause, and what follows is expanded on its own. */
  lemma {:induction false} ReferenceIs(t: Table, counts: seq<nat>, c: string, rest: string, args: seq<string>)
    requires |counts| == |t.vars| && Balanced(c)
    ensures Expand(t, counts, "$(" + c + ")" + rest, args) ==
            Append(Clause(t, counts, c, args), Expand(t, counts, rest, args))
  {
    var s := "$(" + c + ")" + rest;
    var body := c + ")" + rest;
    assert s[2..] == body;
    forall i | 0 <= i <= |c|
      ensures Depth(body[..i]) >= 0
    {
      assert body[..i] == c[..i];
    }
    assert body[..|c|] == c;
    CloseIsFirst(body, 0, |c|);
    assert s[2..2 + |c|] == c && s[3 + |c|..] == rest;
  }

  /** A dollar sign without a parenthesis stands for itself. */
  lemma {:induction false} LoneDollar(t: Table, counts: seq<nat>, rest: string, args: seq<string>)
    requires |counts| == |t.vars| && (rest == [] || rest[0] != '(')
    ensures Expand(t, counts, "$" + rest, args) == Append(Ok("$"), Expand(t, counts, rest, args))
  {
    assert ("$" + rest)[1..] == rest;
  }

  /** A number from 1 to the number of arguments stands for that argument, which is not expanded again. */
  lemma {:induction false} NumberIsArgument(t: Table, counts: seq<nat>, c: string, args: seq<string>, n: nat)
    requires |counts| == |t.vars| && t.number(c) == Some(n) && 1 <= n <= |args|
    ensures Clause(t, counts, c, args) == Ok(args[n - 1])
  {
  }

  /** A text without references, commas and parentheses. */
  predicate IsWord(s: string) { forall i :: 0 <= i < |s| ==> s[i] !in {'$', ',', '(', ')'} }

  lemma {:induction false} MoveFirst(piece: string, s: string)
    requires s != []
    ensures piece + [s[0]] + s[1..] == piece + s
  {
  }

  lemma {:induction false} TailOf(s: string, rest: string)
    requires s != []
    ensures (s + rest)[1..] == s[1..] + rest && (s + rest)[0] == s[0]
  {
  }

  lemma {:induction false} WordIsPiece(s: string, piece: string)
    requires IsWord(s)
    ensures SplitFrom(s, 0, piece) == [piece + s]
  {
    if s == [] {
      assert piece + s == piece;
    } else {
      WordIsPiece(s[1..], piece + [s[0]]);
      MoveFirst(piece, s);
    }
  }

  lemma {:induction false} WordThenComma(s: string, rest: string, piece: string)
    requires IsWord(s)
    ensures SplitFrom(s + "," + rest, 0, piece) == [piece + s] + SplitFrom(rest, 0, [])
  {
    var all := s + "," + rest;
    if s == [] {
      assert all[1..] == rest && piece + s == piece;
    } else {
      TailOf(s, "," + rest);
      assert all == s + ("," + rest) && s[1..] + "," + rest == s[1..] + ("," + rest);
      WordThenComma(s[1..], rest, piece + [s[0]]);
      MoveFirst(piece, s);
    }
  }

  /** Words joined by commas are split into these words. */
  lemma {:induction false} WordsSplit(ws: seq<string>)
    requires |ws| > 0 && forall w :: w in ws ==> IsWord(w)
    ensures Split(Commas(ws)) == ws
  {
    var none: string := [];
    if |ws| == 1 {
      WordIsPiece(ws[0], none);
      assert none + ws[0] == ws[0] && [ws[0]] == ws;
    } else {
      WordsSplit(ws[1..]);
      WordThenComma(ws[0], Commas(ws[1..]), none);
      assert none + ws[0] == ws[0] && [ws[0]] + ws[1..] == ws;
    }
  }

  /** No comma stands outside parentheses. */
  ghost predicate OnePiece(s: string) { forall i :: 0 <= i < |s| && s[i] == ',' ==> Depth(s[..i]) != 0 }

  lemma {:induction false} SplitAtCommas(s: string, nest: int, piece: string)
    requires Depth(piece) == nest && OnePiece(piece)
    ensures forall p :: p in SplitFrom(s, nest, piece) ==> OnePiece(p)
  {
    if s != [] {
      if nest == 0 && s[0] == ',' {
        SplitAtCommas(s[1..], 0, []);
      } else {
        var next := piece + [s[0]];
        assert [s[0]][1..] == [];
        DepthAdds(piece, [s[0]]);
        forall i | 0 <= i < |next| && next[i] == ','
          ensures Depth(next[..i]) != 0
        {
          assert next[..i] == if i < |piece| then piece[..i] else piece;
        }
        SplitAtCommas(s[1..], nest + Nest(s[0]), next);
      }
    }
  }

  /** A clause is split at every comma outside parentheses. */
  lemma {:induction false} PiecesAreWhole(c: string)
    ensures forall p :: p in Split(c) ==> OnePiece(p)
  {
    SplitAtCommas(c, 0, []);
  }

  lemma {:induction false} WordsExpand(t: Table, counts: seq<nat>, c: string, ws: seq<string>, args: seq<string>)
    requires |counts| == |t.vars| && forall w :: w in ws ==> IsWord(w) && |w| <= |c|
    ensures Pieces(t, counts, c, ws, args) == All(ws)
  {
    if ws != [] {
      assert IsWord(ws[0]) && '$' !in ws[0];
      PlainText(t, counts, ws[0], args);
      WordsExpand(t, counts, c, ws[1..], args);
      assert [ws[0]] + ws[1..] == ws;
    }
  }

  /** A clause of words is a call of the first with the others as arguments, unless it is the number of an argument. */
  lemma {:induction false} ClauseCalls(t: Table, counts: seq<nat>, ws: seq<string>, args: seq<string>)
    requires |counts| == |t.vars| && 1 <= |ws| <= 16 && forall w :: w in ws ==> IsWord(w)
    requires t.number(Commas(ws)).Some? ==> t.number(Commas(ws)).value == 0 || t.number(Commas(ws)).value > |args|
    ensures Clause(t, counts, Commas(ws), args) == Call(t, counts, ws[0], ws[1..])
  {
    WordsSplit(ws);
    WordsExpand(t, counts, Commas(ws), ws, args);
  }

  /** The variable meant by a name is the first one of that name. */
  lemma {:induction false} LookupIsFirst(vars: seq<Variable>, name: string)
    ensures forall j :: 0 <= j < Lookup(vars, name) ==> vars[j].name != name
    ensures Lookup(vars, name) < |vars| ==> vars[Lookup(vars, name)].name == name
  {
    if vars != [] && vars[0].name != name {
      LookupIsFirst(vars[1..], name);
    }
  }

  ghost predicate IsFirst(vars: seq<Variable>, name: string, i: nat) {
    i < |vars| && vars[i].name == name && forall j :: 0 <= j < i ==> vars[j].name != name
  }

  lemma {:induction false} FirstIsFound(vars: seq<Variable>, name: string, i: nat)
    requires IsFirst(vars, name, i)
    ensures Lookup(vars, name) == i
  {
    LookupIsFirst(vars, name);
  }

  /** A simple variable stands for its value as it is, and a recursive one for its value expanded with the arguments of
      the call, one level deeper. */
  lemma {:induction false} VariableIs(t: Table, counts: seq<nat>, name: string, args: seq<string>, i: nat)
    requires |counts| == |t.vars| && IsFirst(t.vars, name, i)
    requires counts[i] <= 1000 && (args == [] ==> counts[i] == 0)
    ensures Call(t, counts, name, args) ==
            if t.vars[i].isRecursive then Expand(t, counts[i := counts[i] + 1], t.vars[i].value, args)
            else Ok(t.vars[i].value)
  {
    FirstIsFound(t.vars, name, i);
  }

  /** A variable that refers to itself without arguments, or is entered for the thousand and second time, is an
      error. */
  lemma {:induction false} RecursionFails(t: Table, counts: seq<nat>, name: string, args: seq<string>, i: nat)
    requires |counts| == |t.vars| && IsFirst(t.vars, name, i)
    requires (args == [] && counts[i] > 0) || counts[i] > 1000
    ensures Call(t, counts, name, args) == Error
  {
    FirstIsFound(t.vars, name, i);
  }

  /** A name that is no variable is a built-in function or, without arguments, an environment variable, or nothing. */
  lemma {:induction false} OtherNames(t: Table, counts: seq<nat>, name: string, args: seq<string>)
    requires |counts| == |t.vars| && forall v :: v in t.vars ==> v.name != name
    ensures Call(t, counts, name, args) ==
            match t.builtin(name, args)
            case Some(r) => r
            case None => Ok(if args == [] && t.env(name).Some? then t.env(name).value else "")
  {
    NotFound(t.vars, name);
  }

  lemma {:induction false} NotFound(vars: seq<Variable>, name: string)
    requires forall v :: v in vars ==> v.name != name
    ensures Lookup(vars, name) == |vars|
  {
    if vars != [] {
      NotFound(vars[1..], name);
    }
  }

  /** Putting it together: `$(f,x)` where f is a recursive variable with the value `a$(1)b` gives `axb`. */
  lemma {:induction false} CallSubstitutes(t: Table, counts: seq<nat>, i: nat, x: string, a: string, b: string)
    requires |counts| == |t.vars| && IsFirst(t.vars, "f", i) && counts[i] <= 1000
    requires t.vars[i].isRecursive && t.vars[i].value == a + ("$(" + "1" + ")" + b)
    requires IsWord(x) && '$' !in a && '$' !in b && t.number("1") == Some(1)
    ensures Clause(t, counts, Commas(["f", x]), []) == Ok(a + (x + b))
  {
    var none: seq<string> := [];
    var deeper := counts[i := counts[i] + 1];
    assert IsWord("f");
    assert ["f", x][0] == "f" && ["f", x][1..] == [x];
    ClauseCallsNoArgs(t, counts, ["f", x]);
    VariableIs(t, counts, "f", [x], i);
    TextIsItself(t, deeper, a, "$(" + "1" + ")" + b, [x]);
    assert Balanced("1") by {
      assert Depth("1") == 0 && Depth("1"[..0]) == 0 && "1"[..1] == "1";
    }
    ReferenceIs(t, deeper, "1", b, [x]);
    NumberIsArgument(t, deeper, "1", [x], 1);
    PlainText(t, deeper, b, [x]);
  }

  lemma {:induction false} ClauseCallsNoArgs(t: Table, counts: seq<nat>, ws: seq<string>)
    requires |counts| == |t.vars| && 1 <= |ws| <= 16 && forall w :: w in ws ==> IsWord(w)
    ensures Clause(t, counts, Commas(ws), []) == Call(t, counts, ws[0], ws[1..])
  {
    var none: seq<string> := [];
    ClauseCalls(t, counts, ws, none);
  }
}
