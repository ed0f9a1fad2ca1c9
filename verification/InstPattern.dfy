/**
 The bit-pattern decoder: a pattern of 0, 1, ? and spaces is turned into a shift, a mask and a key, and a word is
 tested against them.
 */
module InstPattern {
  import opened Bits

  const W: nat := 0x1_0000_0000_0000_0000

  predicate IsPatternChar(c: char) { c == '0' || c == '1' || c == '?' || c == ' ' }

  predicate IsPattern(s: string) { forall i :: 0 <= i < |s| ==> IsPatternChar(s[i]) }

  /** The pattern without its spaces. */
  function Digits(s: string): string {
    if s == [] then [] else Digits(s[..|s| - 1]) + if s[|s| - 1] == ' ' then [] else [s[|s| - 1]]
  }

  lemma {:induction false} DigitsArePattern(s: string)
    requires IsPattern(s)
    ensures IsPattern(Digits(s)) && ' ' !in Digits(s) && |Digits(s)| <= |s|
  {
    if s != [] {
      DigitsArePattern(s[..|s| - 1]);
    }
  }

  /** Each digit of the pattern agrees with its bit of the word; the last digit is bit 0. */
  ghost predicate Matches(d: string, w: nat) {
    forall i :: 0 <= i < |d| ==> d[i] == '?' || (Shr(w, |d| - 1 - i) % 2 == 1 <==> d[i] == '1')
  }

  // ---- Key, mask and shift before the final shifting ----

  function Key(d: string): nat { if d == [] then 0 else 2 * Key(d[..|d| - 1]) + if d[|d| - 1] == '1' then 1 else 0 }

  function Mask(d: string): nat { if d == [] then 0 else 2 * Mask(d[..|d| - 1]) + if d[|d| - 1] == '?' then 0 else 1 }

  /** The number of trailing ? digits. */
  function Shift(d: string): nat { if d == [] || d[|d| - 1] != '?' then 0 else Shift(d[..|d| - 1]) + 1 }

  lemma {:induction false} KeyBelow(d: string)
    ensures Key(d) < Pow2(|d|) && Mask(d) < Pow2(|d|) && Shift(d) <= |d|
  {
    if d != [] {
      KeyBelow(d[..|d| - 1]);
    }
  }

  /** Masking the word gives the key exactly when the digits match, one digit after another. */
  lemma {:induction false} MaskTests(d: string, w: nat)
    requires IsPattern(d) && ' ' !in d
    ensures BitAnd(w, Mask(d)) == Key(d) <==> Matches(d, w)
  {
    if d != [] {
      var init, c := d[..|d| - 1], d[|d| - 1];
      MaskTests(init, w / 2);
      LastDigit(d, w);
      assert c in d;
      if c == '?' {
        DoubledMask(w, Mask(init));
      } else {
        OddMask(w, Mask(init));
      }
    } else {
      assert BitAnd(w, 0) == 0;
    }
  }

  /** The last digit is tested against bit 0, the others against the word shifted by one. */
  lemma {:induction false} LastDigit(d: string, w: nat)
    requires d != []
    ensures Matches(d, w) <==>
              Matches(d[..|d| - 1], w / 2) && (d[|d| - 1] == '?' || (w % 2 == 1 <==> d[|d| - 1] == '1'))
  {
    var init := d[..|d| - 1];
    if Matches(d, w) {
      forall i | 0 <= i < |init|
        ensures init[i] == '?' || (Shr(w / 2, |init| - 1 - i) % 2 == 1 <==> init[i] == '1')
      {
        assert d[i] == init[i] && Shr(w, |d| - 1 - i) == Shr(w / 2, |init| - 1 - i);
      }
      assert Shr(w, 0) == w;
    }
    if Matches(init, w / 2) && (d[|d| - 1] == '?' || (w % 2 == 1 <==> d[|d| - 1] == '1')) {
      forall i | 0 <= i < |d|
        ensures d[i] == '?' || (Shr(w, |d| - 1 - i) % 2 == 1 <==> d[i] == '1')
      {
        if i < |init| {
          assert d[i] == init[i] && Shr(w, |d| - 1 - i) == Shr(w / 2, |init| - 1 - i);
        }
      }
    }
  }

  /** The trailing ? digits leave zeros in key and mask, so shifting them out changes no test. */
  lemma {:induction false} ShiftedTests(d: string, w: nat)
    ensures BitAnd(Shr(w, Shift(d)), Shr(Mask(d), Shift(d))) == Shr(Key(d), Shift(d)) <==> BitAnd(w, Mask(d)) == Key(d)
  {
    if d != [] && d[|d| - 1] == '?' {
      var init := d[..|d| - 1];
      ShiftedTests(init, w / 2);
      DoubledMask(w, Mask(init));
    }
  }

  // ---- The decoder ----

  /** `pattern_decode`: None where the program panics, on another character or a pattern of more than 63. */
  method PatternDecode(s: string) returns (ok: bool, key: nat, mask: nat, shift: nat)
    ensures ok <==> (forall i :: 0 <= i < |s| ==> s[i] in {'0', '1', '?', ' '}) && |s| <= 63
    ensures ok ==> key == Shr(Key(Digits(s)), Shift(Digits(s))) && mask == Shr(Mask(Digits(s)), Shift(Digits(s)))
                   && shift == Shift(Digits(s))
  {
    ok, key, mask, shift := false, 0, 0, 0;
    var i := 0;
    assert s[..0] == [] && Key([]) == Mask([]) == Shift([]) == 0 && Digits([]) == [];
    hide Key, Mask, Shift, Digits, Shr;
    while i < 64
      invariant 0 <= i <= 64 && i <= |s| && IsPattern(s[..i])
      invariant var d := Digits(s[..i]); key == Key(d) && mask == Mask(d) && shift == Shift(d) && |d| <= i
    {
      if i >= |s| {
        assert s[..i] == s;
        key, mask := Shr(key, shift), Shr(mask, shift);
        return true, key, mask, shift;
      }
      var c := s[i];
      NextChar(s, i);
      if c != ' ' {
        if !(c == '0' || c == '1' || c == '?') {
          return;
        }
        key, mask, shift := AddDigit(key, mask, shift, c, Digits(s[..i]));
      }
      i := i + 1;
    }
  }

  /** One step of the unrolled loop. */
  method AddDigit(key: nat, mask: nat, shift: nat, c: char, ghost d: string)
    returns (key': nat, mask': nat, shift': nat)
    requires key == Key(d) && mask == Mask(d) && shift == Shift(d) && |d| <= 63
    ensures key' == Key(d + [c]) && mask' == Mask(d + [c]) && shift' == Shift(d + [c])
  {
    KeyFits(d);
    DigitAdds(d, c);
    hide Key, Mask, Shift, Pow2;
    key' := (key * 2) % W + (if c == '1' then 1 else 0);
    mask' := (mask * 2) % W + (if c == '?' then 0 else 1);
    shift' := if c == '?' then shift + 1 else 0;
  }

  lemma {:induction false} DigitAdds(d: string, c: char)
    ensures Key(d + [c]) == 2 * Key(d) + if c == '1' then 1 else 0
    ensures Mask(d + [c]) == 2 * Mask(d) + if c == '?' then 0 else 1
    ensures Shift(d + [c]) == if c == '?' then Shift(d) + 1 else 0
  {
    assert (d + [c])[..|d|] == d;
  }

  lemma {:induction false} NextChar(s: string, i: nat)
    requires i < |s|
    ensures Digits(s[..i + 1]) == Digits(s[..i]) + if s[i] == ' ' then [] else [s[i]]
    ensures s[i] == ' ' ==> Digits(s[..i + 1]) == Digits(s[..i])
    ensures IsPattern(s[..i + 1]) <==> IsPattern(s[..i]) && IsPatternChar(s[i])
    ensures IsPattern(s) ==> IsPatternChar(s[i])
  {
    assert s[..i + 1][..i] == s[..i];
    assert Digits(s[..i]) + [] == Digits(s[..i]);
    if IsPattern(s[..i]) && IsPatternChar(s[i]) {
      assert forall j :: 0 <= j < i ==> s[..i][j] == s[..i + 1][j];
    }
    if IsPattern(s[..i + 1]) {
      assert s[..i + 1][i] == s[i];
      assert forall j :: 0 <= j < i ==> s[..i][j] == s[..i + 1][j];
    }
  }

  /** Up to 63 digits no bit is lost at the top. */
  lemma {:induction false} KeyFits(d: string)
    ensures |d| <= 63 ==> 2 * Key(d) < W && 2 * Mask(d) < W
  {
    KeyBelow(d);
    if |d| <= 63 {
      Pow2Monotone(|d|, 63);
      Pow63();
    }
  }

  lemma {:induction false} Pow63()
    ensures 2 * Pow2(63) == W
  {
    assert Pow2(8) == 256 && Pow2(64) == 2 * Pow2(63);
    hide Pow2;
    Pow2Adds(8, 8);
    Pow2Adds(16, 16);
    Pow2Adds(32, 32);
  }

  /** The test of `INSTPAT`: a word passes exactly when every digit of the pattern agrees with its bit. */
  method InstPat(pattern: string, inst: nat) returns (ok: bool, hit: bool)
    ensures ok <==> (forall i :: 0 <= i < |pattern| ==> pattern[i] in {'0', '1', '?', ' '}) && |pattern| <= 63
    ensures ok ==> (hit <==> Matches(Digits(pattern), inst))
  {
    var key, mask, shift;
    ok, key, mask, shift := PatternDecode(pattern);
    hit := false;
    if ok {
      hit := BitAnd(Shr(inst, shift), mask) == key;
      DigitsArePattern(pattern);
      ShiftedTests(Digits(pattern), inst);
      MaskTests(Digits(pattern), inst);
    }
  }
}
