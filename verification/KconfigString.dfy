/**
 String values in configuration files: quoting when they are written, and unquoting in place when they are read.
 */
module KconfigString {

  predicate IsSpecial(c: char) { c == '"' || c == '\\' }

  const NUL: char := '\0'

  predicate IsText(s: string) { NUL !in s }

  /** A text with a backslash before each quote and backslash. */
  function Escaped(s: string): string {
    if s == [] then []
    else if IsSpecial(s[0]) then ['\\', s[0]] + Escaped(s[1..])
    else [s[0]] + Escaped(s[1..])
  }

  function Quoted(s: string): string { "\"" + Escaped(s) + "\"" }

  datatype Reading = NotQuoted | Invalid | Text(value: string)

  /** What a quoted text means after its opening quote: a backslash protects the character after it, and the text
      ends at the first quote that is not protected. */
  function Unescaped(s: string): Reading {
    if s == [] then Invalid
    else if s[0] == '"' then Text([])
    else if s[0] == '\\' then if |s| == 1 then Invalid else Prepend(s[1], Unescaped(s[2..]))
    else Prepend(s[0], Unescaped(s[1..]))
  }

  function Prepend(c: char, r: Reading): Reading { if r.Text? then Text([c] + r.value) else r }

  function Read(s: string): Reading { if s != [] && s[0] == '"' then Unescaped(s[1..]) else NotQuoted }

  lemma {:induction false} UnescapedEscaped(s: string, rest: string)
    ensures Unescaped(Escaped(s) + "\"" + rest) == Text(s)
  {
    var t := Escaped(s) + "\"" + rest;
    if s != [] {
      var u := Escaped(s[1..]) + "\"" + rest;
      UnescapedEscaped(s[1..], rest);
      if IsSpecial(s[0]) {
        assert t == ['\\', s[0]] + u;
        assert t[2..] == u;
      } else {
        assert t == [s[0]] + u;
        assert t[1..] == u;
      }
      assert s == [s[0]] + s[1..];
    }
  }

  /** Reading back what was written gives the text, whatever follows the closing quote. */
  lemma {:induction false} ReadQuoted(s: string, rest: string)
    ensures Read(Quoted(s) + rest) == Text(s)
  {
    UnescapedEscaped(s, rest);
    assert (Quoted(s) + rest)[1..] == Escaped(s) + "\"" + rest;
  }

  /** Two different texts are never written alike. */
  lemma {:induction false} QuotedIsInjective(s: string, t: string)
    requires Quoted(s) == Quoted(t)
    ensures s == t
  {
    ReadQuoted(s, []);
    ReadQuoted(t, []);
  }

  // ---- Just what quoting adds and reading takes away ----

  lemma {:induction false} EscapedAdds(s: string, t: string)
    ensures Escaped(s + t) == Escaped(s) + Escaped(t)
  {
    if s == [] {
      assert s + t == t && Escaped(s) + Escaped(t) == Escaped(t);
    } else {
      assert (s + t)[1..] == s[1..] + t;
      EscapedAdds(s[1..], t);
    }
  }

  /** Quoting changes only quotes and backslashes, and puts one backslash before each. */
  lemma {:induction false} EscapedIs(s: string)
    requires '"' !in s && '\\' !in s
    ensures Escaped(s) == s && Escaped("\"") == "\\\"" && Escaped("\\") == "\\\\"
  {
    assert "\""[1..] == "" && "\\"[1..] == "";
    PlainStays(s);
  }

  lemma {:induction false} PlainStays(s: string)
    requires '"' !in s && '\\' !in s
    ensures Escaped(s) == s
  {
    if s != [] {
      PlainStays(s[1..]);
      assert s == [s[0]] + s[1..];
    }
  }

  /** `e` is `v` with a backslash before some characters, among them all quotes and backslashes. */
  predicate Shields(e: string, v: string) {
    if e == [] then v == []
    else if e[0] == '\\' then |e| >= 2 && v != [] && e[1] == v[0] && Shields(e[2..], v[1..])
    else e[0] != '"' && v != [] && e[0] == v[0] && Shields(e[1..], v[1..])
  }

  ghost predicate ReadsAs(s: string, e: string, rest: string, v: string) { s == e + "\"" + rest && Shields(e, v) }

  /** After the opening quote a text reads as `v` if and only if it starts with `v`, protected so, and a closing
      quote. */
  lemma {:induction false} UnescapedExactly(s: string, v: string)
    ensures Unescaped(s) == Text(v) <==> exists e: string, rest: string :: ReadsAs(s, e, rest, v)
  {
    if Unescaped(s) == Text(v) {
      var e, rest := ReadPart(s, v);
      assert ReadsAs(s, e, rest, v);
    }
    if e: string, rest: string :| ReadsAs(s, e, rest, v) {
      ShieldedReads(e, rest, v);
    }
  }

  lemma {:induction false} ReadPart(s: string, v: string) returns (e: string, rest: string)
    requires Unescaped(s) == Text(v)
    ensures ReadsAs(s, e, rest, v)
  {
    if s[0] == '"' {
      e, rest := [], s[1..];
      assert s == e + "\"" + rest;
    } else {
      var k := if s[0] == '\\' then 2 else 1;
      e, rest := ReadPart(s[k..], v[1..]);
      assert s == s[..k] + s[k..] && s == (s[..k] + e) + "\"" + rest;
      assert (s[..k] + e)[k..] == e;
      e := s[..k] + e;
    }
  }

  lemma {:induction false} ShieldedReads(e: string, rest: string, v: string)
    requires Shields(e, v)
    ensures Unescaped(e + "\"" + rest) == Text(v)
  {
    var s := e + "\"" + rest;
    if e != [] {
      var k := if e[0] == '\\' then 2 else 1;
      assert s[k..] == e[k..] + "\"" + rest;
      ShieldedReads(e[k..], rest, v[1..]);
      assert v == [v[0]] + v[1..];
    }
  }

  function Specials(s: string): nat { if s == [] then 0 else (if IsSpecial(s[0]) then 1 else 0) + Specials(s[1..]) }

  lemma {:induction false} EscapedLength(s: string)
    ensures |Escaped(s)| == |s| + Specials(s)
  {
    if s != [] {
      EscapedLength(s[1..]);
    }
  }

  // ---- Writing ----

  /** The buffer holds the text `s` and its terminator. */
  ghost predicate Holds(buf: array<char>, s: string)
    reads buf
  {
    |s| < buf.Length && buf[..|s|] == s && buf[|s|] == NUL && IsText(s)
  }

  /** `strcspn(p, "\"\\")`, and `strpbrk`: the end of the text if there is no special character. */
  method NextSpecial(s: string, p: nat) returns (q: nat)
    requires p <= |s|
    ensures p <= q <= |s| && (q < |s| ==> IsSpecial(s[q]))
    ensures forall i :: p <= i < q ==> !IsSpecial(s[i])
  {
    q := p;
    while q < |s| && !IsSpecial(s[q])
      invariant p <= q <= |s|
      invariant forall i :: p <= i < q ==> !IsSpecial(s[i])
    {
      q := q + 1;
    }
  }

  /** `strcat` and `strncat` to the text `done`, of length `n`, in the buffer; there must be room. */
  method Append(buf: array<char>, n: nat, s: string, ghost done: string) returns (n': nat)
    requires n == |done| && n + |s| < buf.Length && Holds(buf, done) && IsText(s)
    modifies buf
    ensures n' == n + |s| && Holds(buf, done + s)
  {
    var i := 0;
    while i < |s|
      invariant 0 <= i <= |s|
      invariant buf[..n] == done && forall j :: 0 <= j < i ==> buf[n + j] == s[j]
    {
      buf[n + i] := s[i];
      i := i + 1;
    }
    n' := n + |s|;
    buf[n'] := NUL;
    assert buf[..n'] == done + s;
  }

  /** The loop that counts what the quoted text needs. */
  method CountBytes(s: string) returns (n: nat)
    ensures n == |Quoted(s)| + 1
  {
    n := |s| + 2 + 1;
    var p := 0;
    EscapedLength(s);
    assert s[0..] == s;
    while true
      invariant 0 <= p <= |s| && n + Specials(s[p..]) == |s| + 3 + Specials(s)
      decreases |s| - p
    {
      var q := NextSpecial(s, p);
      SkipPlain(s, p, q);
      p := q;
      if p == |s| {
        break;
      }
      n := n + 1;
      p := p + 1;
    }
  }

  lemma {:induction false} SkipPlain(s: string, p: nat, q: nat)
    requires p <= q <= |s| && (forall i :: p <= i < q ==> !IsSpecial(s[i])) && (q < |s| ==> IsSpecial(s[q]))
    ensures Specials(s[p..]) == Specials(s[q..])
    ensures Escaped(s[p..]) == s[p..q] + Escaped(s[q..])
    ensures q < |s| ==> Specials(s[q..]) == 1 + Specials(s[q + 1..])
    ensures q < |s| ==> Escaped(s[q..]) == "\\" + [s[q]] + Escaped(s[q + 1..])
    decreases q - p
  {
    if p < q {
      SkipPlain(s, p + 1, q);
      assert s[p..][1..] == s[p + 1..];
      assert s[p..q] == [s[p]] + s[p + 1..q];
    } else if q < |s| {
      assert s[q..][1..] == s[q + 1..];
    }
  }

  /** `sym_escape_string_value`: the buffer is filled exactly. */
  method Escape(s: string) returns (res: array<char>)
    requires IsText(s)
    ensures fresh(res) && Holds(res, Quoted(s)) && res.Length == |Quoted(s)| + 1
  {
    var size := CountBytes(s);
    res := new char[size];
    res[0] := NUL;
    assert res[..0] == [];
    var n := Append(res, 0, "\"", []);
    ghost var done := "\"";
    StartsWritten(s);
    var p := 0;
    hide *;
    while true
      invariant 0 <= p <= |s| && n == |done| && res.Length == |Quoted(s)| + 1 && fresh(res)
      invariant Holds(res, done) && Written(done, s, p)
      decreases |s| - p
    {
      var q := NextSpecial(s, p);
      SkipPlain(s, p, q);
      WrittenRun(done, s, p, q);
      n := Append(res, n, s[p..q], done);
      done := done + s[p..q];
      p := q;
      if p == |s| {
        break;
      }
      n := AppendProtected(res, n, s[p..p + 1], done);
      done := done + "\\" + s[p..p + 1];
      p := p + 1;
    }
    n := Append(res, n, "\"", done);
  }

  /** `done` is the quoted text up to what stands for position `p`. */
  ghost predicate Written(done: string, s: string, p: nat)
    requires p <= |s|
  {
    done + Escaped(s[p..]) + "\"" == Quoted(s)
  }

  lemma {:induction false} StartsWritten(s: string)
    ensures var none: string := []; none + "\"" == "\"" && Written("\"", s, 0) && IsText("\"") && IsText("\\")
  {
    assert s[0..] == s;
  }

  /** The text written up to the next special character and beyond it. */
  lemma {:induction false} WrittenRun(done: string, s: string, p: nat, q: nat)
    requires p <= q <= |s| && Written(done, s, p) && IsText(s)
    requires Escaped(s[p..]) == s[p..q] + Escaped(s[q..])
    requires q < |s| ==> Escaped(s[q..]) == "\\" + [s[q]] + Escaped(s[q + 1..])
    ensures IsText(s[p..q]) && (q < |s| ==> IsText(s[q..q + 1])) && IsText("\"")
    ensures |done| + |s[p..q]| + 1 <= |Quoted(s)|
    ensures q == |s| ==> done + s[p..q] + "\"" == Quoted(s)
    ensures q < |s| ==> Written(done + s[p..q] + "\\" + s[q..q + 1], s, q + 1)
    ensures q < |s| ==> |done + s[p..q]| + 3 <= |Quoted(s)|
  {
    assert q == |s| ==> Escaped(s[q..]) == [];
    assert q < |s| ==> s[q..q + 1] == [s[q]];
    hide Escaped, Quoted;
    Regroup(done, s[p..q], Escaped(s[q..]), "\"");
    if q < |s| {
      Regroup(done + s[p..q], "\\" + [s[q]], Escaped(s[q + 1..]), "\"");
      Regroup(done + s[p..q], "\\", [s[q]], Escaped(s[q + 1..]) + "\"");
    } else {
      assert done + s[p..q] + [] == done + s[p..q];
    }
  }

  lemma {:induction false} Regroup(a: string, b: string, c: string, d: string)
    ensures a + (b + c) + d == a + b + c + d == a + b + (c + d)
  {
  }

  /** A special character with its backslash. */
  method AppendProtected(buf: array<char>, n: nat, c: string, ghost done: string) returns (n': nat)
    requires n == |done| && n + 1 + |c| < buf.Length && Holds(buf, done) && IsText(c)
    modifies buf
    ensures n' == n + 1 + |c| && Holds(buf, done + "\\" + c)
  {
    n' := Append(buf, n, "\\", done);
    n' := Append(buf, n', c, done + "\\");
  }

  // ---- Reading ----

  /** `memmove(p, p + 1, strlen(p))` on the text of length `n`: the character at `p` disappears. */
  method RemoveAt(buf: array<char>, p: nat, n: nat, ghost text: string)
    requires n == |text| && p < n && Holds(buf, text)
    modifies buf
    ensures Holds(buf, text[..p] + text[p + 1..])
  {
    var i := p;
    while i < n
      invariant p <= i <= n
      invariant forall j :: 0 <= j < p ==> buf[j] == text[j]
      invariant forall j :: p <= j < i ==> buf[j] == if j + 1 < n then text[j + 1] else NUL
      invariant forall j :: i <= j < n ==> buf[j] == text[j]
      invariant buf[n] == NUL
    {
      buf[i] := buf[i + 1];
      i := i + 1;
    }
    ghost var now := text[..p] + text[p + 1..];
    assert forall j :: 0 <= j < |now| ==> buf[j] == now[j];
    assert buf[..n - 1] == now;
  }

  lemma {:induction false} UnescapedRun(s: string, p: nat, q: nat)
    requires p <= q <= |s| && forall i :: p <= i < q ==> !IsSpecial(s[i])
    ensures Unescaped(s[p..]) == Prefixed(s[p..q], Unescaped(s[q..]))
    decreases q - p
  {
    if p < q {
      UnescapedRun(s, p + 1, q);
      assert s[p..][1..] == s[p + 1..];
      assert s[p..q] == [s[p]] + s[p + 1..q];
      PrefixedAdds([s[p]], s[p + 1..q], Unescaped(s[q..]));
    } else if Unescaped(s[q..]).Text? {
      assert s[p..q] + Unescaped(s[q..]).value == Unescaped(s[q..]).value;
    }
  }

  function Prefixed(a: string, r: Reading): Reading { if r.Text? then Text(a + r.value) else r }

  lemma {:induction false} PrefixedAdds(a: string, b: string, r: Reading)
    ensures Prefixed(a, Prefixed(b, r)) == Prefixed(a + b, r)
  {
    if r.Text? {
      assert a + (b + r.value) == a + b + r.value;
    }
  }

  /** The string case of `conf_set_sym_val`, on the text in the buffer: what was read is left in it. */
  method ReadInPlace(buf: array<char>, n: nat, ghost text: string) returns (r: Reading)
    requires n == |text| && Holds(buf, text)
    modifies buf
    ensures r == Read(text)
  {
    r := NotQuoted;
    if n == 0 || buf[0] != '"' {
      return;
    }
    var p, len := 1, n;
    ghost var now := text;
    ReadStarts(text);
    while true
      invariant 1 <= p <= len == |now| && Holds(buf, now) && ReadSoFar(text, now, p)
      decreases len - p
    {
      var q := FindSpecial(buf, p, len, now);
      ReadStep(text, now, p, q);
      hide Read, ReadSoFar, Unescaped;
      if q == len {
        return Invalid;
      }
      if buf[q] == '"' {
        assert buf[..len] == now;
        assert buf[1..q] == buf[..len][1..q];
        return Text(buf[1..q]);
      }
      RemoveAt(buf, q, len, now);
      now := now[..q] + now[q + 1..];
      len := len - 1;
      // The cursor moves past the character that took the place of the backslash; past the end there is none.
      if q == len {
        return Invalid;
      }
      p := q + 1;
    }
  }

  /** What `text` means, when the buffer now holds `now` and the cursor is at `p`. */
  ghost predicate ReadSoFar(text: string, now: string, p: nat)
    requires 1 <= p <= |now|
  {
    Read(text) == Prefixed(now[1..p], Unescaped(now[p..]))
  }

  lemma {:induction false} ReadStarts(text: string)
    requires text != [] && text[0] == '"'
    ensures ReadSoFar(text, text, 1)
  {
    assert text[1..1] == [];
    var r := Unescaped(text[1..]);
    if r.Text? {
      var none: string := [];
      assert none + r.value == r.value;
    }
  }

  /** The cursor after the characters up to the next special one. */
  lemma {:induction false} ReadRun(text: string, now: string, p: nat, q: nat)
    requires 1 <= p <= q <= |now| && ReadSoFar(text, now, p) && forall i :: p <= i < q ==> !IsSpecial(now[i])
    ensures Read(text) == Prefixed(now[1..q], Unescaped(now[q..]))
  {
    UnescapedRun(now, p, q);
    PrefixedAdds(now[1..p], now[p..q], Unescaped(now[q..]));
    assert now[1..p] + now[p..q] == now[1..q];
  }

  /** Removing a backslash and stepping over the character after it. */
  lemma {:induction false} BackslashGone(now: string, q: nat)
    requires 1 <= q < |now| - 1 && now[q] == '\\'
    ensures var next := now[..q] + now[q + 1..];
            Prefixed(now[1..q], Unescaped(now[q..])) == Prefixed(next[1..q + 1], Unescaped(next[q + 1..]))
  {
    var next := now[..q] + now[q + 1..];
    assert now[q..][2..] == now[q + 2..] == next[q + 1..];
    var r := Unescaped(next[q + 1..]);
    assert next[1..q + 1] == now[1..q] + [now[q + 1]];
    if r.Text? {
      assert now[1..q] + ([now[q + 1]] + r.value) == next[1..q + 1] + r.value;
    }
  }

  lemma {:induction false} ReadStep(text: string, now: string, p: nat, q: nat)
    requires 1 <= p <= q <= |now| && ReadSoFar(text, now, p) && forall i :: p <= i < q ==> !IsSpecial(now[i])
    ensures q == |now| ==> Read(text) == Invalid
    ensures q < |now| && now[q] == '"' ==> Read(text) == Text(now[1..q])
    ensures q < |now| && now[q] == '\\' ==>
              var next := now[..q] + now[q + 1..];
              if q == |next| then Read(text) == Invalid else ReadSoFar(text, next, q + 1)
  {
    ReadRun(text, now, p, q);
    if q < |now| - 1 && now[q] == '\\' {
      BackslashGone(now, q);
    }
    assert now[1..q] + [] == now[1..q];
  }

  /** `strpbrk` in the buffer. */
  method FindSpecial(buf: array<char>, p: nat, n: nat, ghost text: string) returns (q: nat)
    requires p <= n == |text| && Holds(buf, text)
    ensures p <= q <= n && (q < n ==> IsSpecial(text[q]) && buf[q] == text[q])
    ensures forall i :: p <= i < q ==> !IsSpecial(text[i])
  {
    q := p;
    while buf[q] != NUL && !IsSpecial(buf[q])
      invariant p <= q <= n
      invariant forall i :: p <= i < q ==> !IsSpecial(text[i])
      decreases n - q
    {
      assert buf[q] == text[q];
      q := q + 1;
    }
  }

  /** A value that is written and read back is the same. */
  method WriteAndRead(s: string) returns (r: Reading)
    requires IsText(s)
    ensures r == Text(s)
  {
    var buf := Escape(s);
    ReadQuoted(s, []);
    assert Quoted(s) + [] == Quoted(s);
    r := ReadInPlace(buf, buf.Length - 1, Quoted(s));
  }
}
