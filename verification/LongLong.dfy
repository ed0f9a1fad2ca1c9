/**
 Double-word arithmetic from half-words: `__udiv_qrnnd_c`, `umul_ppmm` (longlong.h) and `__multi3`.
 A word has 2 * h bits, for any h > 0; `b` is the half-word base 2^h, and words wrap at w = b * b.
 */
module LongLong {
  import opened Bits

  // ---- Words and halves ----

  lemma {:induction false} Square(b: nat, x: nat, y: nat)
    requires x < b && y < b
    ensures x * b + y < b * b
  {
    MulMonotone(x + 1, b, b);
  }

  lemma {:induction false} ModSmall(x: nat, w: nat)
    requires x < w
    ensures x % w == x
  {
  }

  lemma {:induction false} HighBound(hi: nat, lo: nat, w: nat)
    requires hi * w + lo < w * w
    ensures hi < w
  {
    MulMonotone(w, hi, w);
  }

  lemma {:induction false} ProductBelow(u: nat, v: nat, w: nat)
    requires u < w && v < w
    ensures u * v < w * w
  {
    MulMonotone(u, w, v);
    MulMonotone(v + 1, w, w);
    assert w * v == v * w;
  }

  /** The division and remainder the language provides. */
  method DivMod(x: nat, y: nat) returns (q: nat, r: nat)
    requires y > 0
    ensures x == Times(q, y) + r && r < y
  {
    q, r := x / y, x % y;
    TimesIs(q, y);
  }

  /** A product that fits a word. */
  method Multiply(x: nat, y: nat, w: nat) returns (p: nat)
    requires Times(x, y) < w
    ensures p == Times(x, y)
  {
    TimesIs(x, y);
    ModSmall(x * y, w);
    p := (x * y) % w;
  }

  /** Addition of words. */
  function AddWord(x: nat, y: nat, w: nat): (s: nat)
    requires x < w && y < w
    ensures s == (x + y) % w
  {
    WrappedSum(x, y, w);
    if x + y >= w then x + y - w else x + y
  }

  /** A sum that wraps is below its second operand, and one that does not is not. */
  lemma {:induction false} WrappedSum(x: nat, y: nat, w: nat)
    requires x < w && y < w
    ensures var s := (x + y) % w;
            s + (if x + y >= w then w else 0) == x + y && (s < y <==> x + y >= w)
  {
    if x + y >= w {
      DivModUnique(x + y, w, 1, x + y - w);
    } else {
      ModSmall(x + y, w);
    }
  }

  /** The halves of a word, `__ll_highpart` and `__ll_lowpart`. */
  method Halves(h: nat, b: nat, t: nat) returns (hi: nat, lo: nat)
    requires b == Pow2(h) && t < Times(b, b)
    ensures t == Times(hi, b) + lo && hi < b && lo < b
  {
    SplitSum(t, h);
    AndMask(t, h);
    hi, lo := Shr(t, h), BitAnd(t, b - 1);
    HighHalf(h, b, t, hi, lo);
  }

  lemma {:induction false} HighHalf(h: nat, b: nat, t: nat, hi: nat, lo: nat)
    requires b == Pow2(h) && t < Times(b, b) && t == Shl(hi, h) + lo
    ensures t == Times(hi, b) + lo && hi < b
  {
    ShlIsProduct(hi, h);
    TimesIs(hi, b);
    TimesIs(b, b);
    HighBound(hi, lo, b);
  }

  /** `hi * __ll_B | lo`. */
  method Extend(ghost h: nat, b: nat, hi: nat, lo: nat) returns (r: nat)
    requires b == Pow2(h) && lo < b
    ensures r == Times(hi, b) + lo
  {
    ShlIsProduct(hi, h);
    OrDisjoint(hi, lo, h);
    TimesIs(hi, b);
    r := BitOr(hi * b, lo);
  }

  // ---- __udiv_qrnnd_c ----

  /** The estimate q1 = n1 / d1 of a quotient digit is at most B + 1 ... */
  lemma {:induction false} EstimateBound(b: nat, d1: nat, d0: nat, n1: nat, q1: nat, r1: nat)
    requires d0 < b <= 2 * d1 && n1 < Times(d1, b) + d0 && n1 == Times(q1, d1) + r1
    ensures q1 <= b + 1
  {
    TimesIs(d1, b); TimesIs(q1, d1);
    MulMonotone(b + 2, q1, d1);
    assert (b + 2) * d1 == d1 * b + 2 * d1;
  }

  /** ... so its product with d0 fits a word, and is at most twice the divisor ... */
  lemma {:induction false} EstimateProduct(b: nat, d1: nat, d0: nat, q1: nat)
    requires d0 < b <= 2 * d1 && q1 <= b + 1
    ensures Times(q1, d0) < Times(b, b) <= 2 * (Times(d1, b) + d0)
  {
    TimesIs(q1, d0); TimesIs(b, b); TimesIs(d1, b);
    ProductFits(b, d0, q1);
    HalfSquare(b, d1);
  }

  lemma {:induction false} ProductFits(b: nat, d0: nat, q1: nat)
    requires d0 < b && q1 <= b + 1
    ensures q1 * d0 < b * b
  {
    MulMonotone(q1, b + 1, d0);
    MulMonotone(d0, b - 1, b + 1);
    assert (b + 1) * d0 == d0 * (b + 1) && (b - 1) * (b + 1) == b * b - 1;
  }

  lemma {:induction false} HalfSquare(b: nat, d1: nat)
    requires b <= 2 * d1
    ensures b * b <= 2 * (d1 * b)
  {
    MulMonotone(b, 2 * d1, b);
    assert (2 * d1) * b == 2 * (d1 * b);
  }

  /** ... and with its remainder extended by the next digit `x` it accounts for n1 * B + x. */
  lemma {:induction false} EstimateSum(b: nat, d: nat, d1: nat, d0: nat, n1: nat, q1: nat, r1: nat, x: nat)
    requires n1 == Times(q1, d1) + r1 && r1 < d1 && x < b && d == Times(d1, b) + d0
    ensures Times(n1, b) + x == Times(q1, d) + (Times(r1, b) + x - Times(q1, d0))
    ensures Times(r1, b) + x < d
  {
    TimesIs(n1, b); TimesIs(q1, d1); TimesIs(d1, b); TimesIs(q1, d); TimesIs(r1, b); TimesIs(q1, d0);
    MulMonotone(r1 + 1, d1, b);
    ExpandEstimate(b, d, d1, d0, n1, q1, r1);
  }

  lemma {:induction false} ExpandEstimate(b: nat, d: nat, d1: nat, d0: nat, n1: nat, q1: nat, r1: nat)
    requires n1 == q1 * d1 + r1 && d == d1 * b + d0
    ensures n1 * b == q1 * d + r1 * b - q1 * d0
    ensures (r1 + 1) * b == r1 * b + b
  {
    assert (q1 * d1 + r1) * b == q1 * (d1 * b) + r1 * b;
    assert q1 * (d1 * b + d0) == q1 * (d1 * b) + q1 * d0;
  }

  lemma {:induction false} Lower(q: nat, d: nat, n: nat, v: int)
    requires n == Times(q, d) + v && v < 0
    ensures q >= 1 && n == Times(q - 1, d) + (v + d)
  {
    TimesIs(q, d);
    TimesIs(if q >= 1 then q - 1 else 0, d);
  }

  /** Two corrections at most make the estimate exact; `w` is the word modulus. The test `r' >= d` sees
      whether adding the divisor wrapped around. */
  method Correct(w: nat, d: nat, m: nat, q: nat, r: nat, ghost n: int) returns (q': nat, r': nat)
    requires 0 < d < w <= 2 * d && m < w && r < d
    requires 0 <= n == Times(q, d) + (r - m)
    ensures n == Times(q', d) + r' && r' < d
    ensures q' <= q <= q' + 2
  {
    q', r' := q, r;
    ghost var v := r - m;
    if r' < m {
      Lower(q', d, n, v);
      q', r', v := q' - 1, AddWord(r', d, w), v + d;
      if r' >= d {
        if r' < m {
          Lower(q', d, n, v);
          q', r', v := q' - 1, AddWord(r', d, w), v + d;
        }
      }
    }
    assert 0 <= v < d;
    r' := if r' >= m then r' - m else r' - m + w;
  }

  lemma {:induction false} DigitBound(q: nat, d: nat, r: nat, n1: nat, b: nat, x: nat)
    requires Times(n1, b) + x == Times(q, d) + r && n1 < d && x < b
    ensures q < b
  {
    TimesIs(n1, b); TimesIs(q, d);
    MulMonotone(n1 + 1, d, b);
    MulMonotone(b, q, d);
    assert d * b == b * d;
  }

  /** One digit of the quotient: n1 * B + x divided by d = d1 * B + d0, whose top bit is set. */
  method DivideDigit(ghost h: nat, b: nat, w: nat, d: nat, d1: nat, d0: nat, n1: nat, x: nat) returns (q: nat, r: nat)
    requires b == Pow2(h) && w == Times(b, b) && d1 < b && d0 < b <= 2 * d1 && d == Times(d1, b) + d0
    requires n1 < d && x < b
    ensures Times(n1, b) + x == Times(q, d) + r && r < d && q < b
  {
    q, r := DivMod(n1, d1);
    EstimateBound(b, d1, d0, n1, q, r);
    EstimateProduct(b, d1, d0, q);
    EstimateSum(b, d, d1, d0, n1, q, r, x);
    SquareBound(b, d1, d0);
    var m := Multiply(q, d0, w);
    r := Extend(h, b, r, x);
    q, r := Correct(w, d, m, q, r, Times(n1, b) + x);
    DigitBound(q, d, r, n1, b, x);
  }

  lemma {:induction false} TopBitHalf(b: nat, d1: nat, d0: nat)
    requires b % 2 == 0 && d0 < b && Times(b, b) <= 2 * (Times(d1, b) + d0)
    ensures b <= 2 * d1
  {
    TimesIs(b, b); TimesIs(d1, b);
    MulMonotone(2 * d1 + 2, b, b);
    assert (2 * d1 + 2) * b == 2 * (d1 * b) + 2 * b;
  }

  lemma {:induction false} TwoDigits(b: nat, w: nat, d: nat, n1: nat, n0: nat, x1: nat, x0: nat, q1: nat, r1: nat,
          q0: nat, r0: nat, q: nat)
    requires w == Times(b, b) && n0 == Times(x1, b) + x0 && q1 < b && q0 < b && q == Times(q1, b) + q0
    requires Times(n1, b) + x1 == Times(q1, d) + r1 && Times(r1, b) + x0 == Times(q0, d) + r0
    ensures Times(q, d) + r0 == Times(n1, w) + n0 && q < w
  {
    SquareBound(b, q1, q0);
    ScaleSum(q1, q0, b, d, q);
    UpperDigit(b, w, d, n1, x1, q1, r1);
  }

  lemma {:induction false} ScaleSum(x: nat, y: nat, b: nat, d: nat, t: nat)
    requires t == Times(x, b) + y
    ensures Times(t, d) == Times(Times(x, d), b) + Times(y, d)
  {
    TimesAdds(Times(x, b), y, d);
    TimesSwaps(x, b, d);
  }

  lemma {:induction false} UpperDigit(b: nat, w: nat, d: nat, n1: nat, x1: nat, q1: nat, r1: nat)
    requires w == Times(b, b) && Times(n1, b) + x1 == Times(q1, d) + r1
    ensures Times(Times(q1, d), b) + Times(r1, b) == Times(n1, w) + Times(x1, b)
  {
    TimesAdds(Times(q1, d), r1, b);
    TimesAdds(Times(n1, b), x1, b);
    TimesAssociates(n1, b, b);
  }

  lemma {:induction false} SquareBound(b: nat, x: nat, y: nat)
    requires x < b && y < b
    ensures Times(x, b) + y < Times(b, b)
  {
    TimesIs(x, b); TimesIs(b, b);
    Square(b, x, y);
  }

  /** `__udiv_qrnnd_c`: the double word n1:n0 divided by a word with its top bit set, where n1 < d. */
  method UDivQrnnd(h: nat, b: nat, w: nat, n1: nat, n0: nat, d: nat) returns (q: nat, r: nat)
    requires h > 0 && b == Pow2(h) && w == b * b && d < w <= 2 * d
    requires n1 < d && n0 < w
    ensures q * d + r == n1 * w + n0 && r < d && q < w
  {
    TimesIs(b, b);
    q, r := DivideTwoDigits(h, b, w, n1, n0, d);
    TimesIs(q, d); TimesIs(n1, w);
  }

  method DivideTwoDigits(h: nat, b: nat, w: nat, n1: nat, n0: nat, d: nat) returns (q: nat, r: nat)
    requires h > 0 && b == Pow2(h) && w == Times(b, b) && d < w <= 2 * d
    requires n1 < d && n0 < w
    ensures Times(q, d) + r == Times(n1, w) + n0 && r < d && q < w
  {
    var d1, d0 := Halves(h, b, d);
    TopBitHalf(b, d1, d0);
    var x1, x0 := Halves(h, b, n0);
    var q1, r1 := DivideDigit(h, b, w, d, d1, d0, n1, x1);
    var q0, r0 := DivideDigit(h, b, w, d, d1, d0, r1, x0);
    q := Extend(h, b, q1, q0);
    r := r0;
    TwoDigits(b, w, d, n1, n0, x1, x0, q1, r1, q0, r0, q);
  }

  // ---- umul_ppmm ----

  lemma {:induction false} PartialProducts(b: nat, ul: nat, uh: nat, vl: nat, vh: nat)
    ensures (uh * b + ul) * (vh * b + vl) == uh * vh * (b * b) + (ul * vh + uh * vl) * b + ul * vl
  {
    calc {
      (uh * b + ul) * (vh * b + vl);
      (uh * b) * (vh * b) + (uh * b) * vl + ul * (vh * b) + ul * vl;
      uh * vh * (b * b) + uh * vl * b + ul * vh * b + ul * vl;
    }
  }

  lemma {:induction false} HalfProduct(b: nat, x: nat, y: nat)
    requires x < b && y < b
    ensures Times(x, y) + b <= Times(b, b)
  {
    TimesIs(x, y); TimesIs(b, b);
    MulMonotone(x, b - 1, y);
    MulMonotone(y, b, b - 1);
    assert (b - 1) * y == y * (b - 1) && (b - 1) * b == b * (b - 1) == b * b - b;
  }

  /** `umul_ppmm`: the exact product of two words as the double word w1:w0. */
  method UMulPpmm(h: nat, b: nat, w: nat, u: nat, v: nat) returns (w1: nat, w0: nat)
    requires b == Pow2(h) && w == b * b && u < w && v < w
    ensures w1 * w + w0 == u * v && w1 < w && w0 < w
  {
    TimesIs(b, b);
    var uh, ul := Halves(h, b, u);
    var vh, vl := Halves(h, b, v);
    ProductOfHalves(b, w, u, v, uh, ul, vh, vl);
    HalfProduct(b, ul, vl); HalfProduct(b, ul, vh); HalfProduct(b, uh, vl); HalfProduct(b, uh, vh);
    var x0 := Multiply(ul, vl, w);
    var x1 := Multiply(ul, vh, w);
    var x2 := Multiply(uh, vl, w);
    var x3 := Multiply(uh, vh, w);
    w1, w0 := SumPartials(h, b, w, x0, x1, x2, x3, Times(u, v));
    FinishProduct(w, u, v, w1, w0);
  }

  lemma {:induction false} FinishProduct(w: nat, u: nat, v: nat, w1: nat, w0: nat)
    requires Times(w1, w) + w0 == Times(u, v)
    ensures w1 * w + w0 == u * v
  {
    TimesIs(w1, w); TimesIs(u, v);
  }

  lemma {:induction false} ProductOfHalves(b: nat, w: nat, u: nat, v: nat, uh: nat, ul: nat, vh: nat, vl: nat)
    requires w == Times(b, b) && u == Times(uh, b) + ul && v == Times(vh, b) + vl && u < w && v < w
    ensures Times(u, v) == Times(Times(uh, vh), w) + Times(Times(ul, vh) + Times(uh, vl), b) + Times(ul, vl)
    ensures Times(u, v) < Times(w, w)
  {
    TimesIs(b, b); TimesIs(uh, b); TimesIs(vh, b); TimesIs(u, v); TimesIs(w, w);
    TimesIs(uh, vh); TimesIs(ul, vh); TimesIs(uh, vl); TimesIs(ul, vl);
    TimesIs(uh * vh, w); TimesIs(ul * vh + uh * vl, b);
    PartialProducts(b, ul, uh, vl, vh);
    ProductBelow(u, v, w);
  }

  /** Adds up the four partial products; only the second addition to the middle word can carry. */
  method SumPartials(h: nat, b: nat, w: nat, x0: nat, x1: nat, x2: nat, x3: nat, ghost product: nat)
    returns (w1: nat, w0: nat)
    requires b == Pow2(h) && w == Times(b, b)
    requires x0 < w && x2 < w && x3 < w && x1 + b <= w
    requires product == Times(x3, w) + Times(x1 + x2, b) + x0 && product < Times(w, w)
    ensures Times(w1, w) + w0 == product && w1 < w && w0 < w
  {
    var x0h, x0l := Halves(h, b, x0);
    var mid := AddWord(x1, x0h, w);
    ModSmall(x1 + x0h, w);
    WrappedSum(mid, x2, w);
    mid := AddWord(mid, x2, w);
    ghost var carry := mid < x2;
    var x1h, x1l := Halves(h, b, mid);
    PartialSum(b, w, x3, x1 + x2, carry, x0, x0h, x0l, mid, x1h, x1l);
    var x3' := x3;
    if mid < x2 {
      x3' := AddWord(x3', b, w);
      ModSmall(x3 + b, w);
    }
    ModSmall(x3' + x1h, w);
    w1 := AddWord(x3', x1h, w);
    w0 := Extend(h, b, x1l, x0l);
  }

  lemma {:induction false} PartialSum(b: nat, w: nat, x3: nat, mid0: nat, c: bool, x0: nat, x0h: nat, x0l: nat,
          x1: nat, x1h: nat, x1l: nat)
    requires w == Times(b, b) && x0 == Times(x0h, b) + x0l && x1 == Times(x1h, b) + x1l && x0l < b && x1l < b
    requires mid0 + x0h == (if c then w else 0) + x1
    requires Times(x3, w) + Times(mid0, b) + x0 < Times(w, w)
    ensures var hi := x3 + (if c then b else 0) + x1h;
            && hi < w && Times(x1l, b) + x0l < w
            && Times(hi, w) + (Times(x1l, b) + x0l) == Times(x3, w) + Times(mid0, b) + x0
  {
    var k := if c then 1 else 0;
    var hi := x3 + k * b + x1h;
    TimesIs(b, b); TimesIs(x0h, b); TimesIs(x1h, b); TimesIs(x3, w); TimesIs(mid0, b);
    TimesIs(w, w); TimesIs(hi, w); TimesIs(x1l, b);
    Reassemble(b, w, x3, mid0, k, x0h, x0l, x1h, x1l);
    Square(b, x1l, x0l);
    HighBound(hi, x1l * b + x0l, w);
  }

  lemma {:induction false} Reassemble(b: nat, w: nat, x3: nat, mid0: nat, c: nat, x0h: nat, x0l: nat, x1h: nat,
          x1l: nat)
    requires w == b * b && mid0 + x0h == c * w + (x1h * b + x1l)
    ensures x3 * w + mid0 * b + (x0h * b + x0l) == (x3 + c * b + x1h) * w + (x1l * b + x0l)
  {
    calc {
      x3 * w + mid0 * b + (x0h * b + x0l);
      x3 * w + (mid0 + x0h) * b + x0l;
      x3 * w + (c * w + (x1h * b + x1l)) * b + x0l;
      x3 * w + c * w * b + x1h * b * b + x1l * b + x0l;
      { assert c * w * b == c * b * w && x1h * b * b == x1h * w; }
      (x3 + c * b + x1h) * w + (x1l * b + x0l);
    }
  }

  // ---- __multi3 ----

  /** `hi:lo` is the double word `x`. */
  ghost predicate Is(w: nat, hi: nat, lo: nat, x: nat) { hi < w && lo < w && x == Times(hi, w) + lo }

  /** The top bit of a word and the word shifted left. */
  lemma {:induction false} MsbSplit(n: nat, w: nat, x: nat)
    requires n > 0 && w == Pow2(n) && x < w
    ensures Shr(x, n - 1) <= 1 && 2 * x == Shr(x, n - 1) * w + (2 * x) % w && (2 * x) % w < w
  {
    var msb := Shr(x, n - 1);
    SplitSum(x, n - 1);
    ShlIsProduct(msb, n - 1);
    ShrBelow(x, n - 1, 1);
    DivModUnique(2 * x, w, msb, 2 * Low(x, n - 1));
  }

  /** Shifting the double word th:ul left by one bit, as the loop does it, doubles it. */
  lemma {:induction false} DoubleShift(n: nat, w: nat, th: nat, ul: nat, m: nat)
    requires n > 0 && w == Pow2(n) && Is(w, th, ul, m) && 2 * m < w * w
    ensures Is(w, BitOr(Shr(ul, n - 1), (2 * th) % w), (2 * ul) % w, 2 * m)
  {
    var msb, l := Shr(ul, n - 1), (2 * ul) % w;
    MsbSplit(n, w, ul);
    DoubleSum(w, th, ul, msb, l);
    TimesIs(th, w); TimesIs(2 * th + msb, w);
    HighBound(2 * th + msb, l, w);
    ModSmall(2 * th, w);
    OrLow(msb, th);
  }

  lemma {:induction false} DoubleSum(w: nat, th: nat, ul: nat, msb: nat, l: nat)
    requires 2 * ul == msb * w + l
    ensures 2 * (th * w + ul) == (2 * th + msb) * w + l
  {
  }

  lemma {:induction false} OrLow(c: nat, x: nat)
    requires c <= 1
    ensures BitOr(c, 2 * x) == 2 * x + c
  {
  }

  /** Adding two double words, low words first, when the sum fits. */
  lemma {:induction false} AddDouble(w: nat, wh: nat, wl: nat, th: nat, ul: nat, s: nat, m: nat)
    requires Is(w, wh, wl, s) && Is(w, th, ul, m) && s + m < w * w
    ensures var lo := (wl + ul) % w;
            var carry := if lo < wl then 1 else 0;
            (th + wh) % w + carry < w && Is(w, ((th + wh) % w + carry) % w, lo, s + m)
  {
    var lo := (wl + ul) % w;
    WrappedSum(ul, wl, w);
    var carry := if lo < wl then 1 else 0;
    SumHigh(w, wh, wl, th, ul, carry, lo);
    TimesIs(wh, w); TimesIs(th, w); TimesIs(th + wh + carry, w);
    HighBound(th + wh + carry, lo, w);
    ModSmall(th + wh, w);
    ModSmall(th + wh + carry, w);
  }

  lemma {:induction false} SumHigh(w: nat, wh: nat, wl: nat, th: nat, ul: nat, carry: nat, lo: nat)
    requires wl + ul == carry * w + lo
    ensures (wh * w + wl) + (th * w + ul) == (th + wh + carry) * w + lo
  {
  }

  // ---- Double-word addition and subtraction ----

  /** A sum of at most two words and a carry, modulo the word. */
  lemma {:induction false} WrapOnce(x: nat, w: nat)
    requires x < 2 * w
    ensures x % w == if x >= w then x - w else x
  {
    if x >= w {
      DivModUnique(x, w, 1, x - w);
    } else {
      ModSmall(x, w);
    }
  }

  /** `add_ssaaaa`: the sum of two double words; `k` is the carry out of the high word. */
  method AddSsaaaa(w: nat, ah: nat, al: nat, bh: nat, bl: nat) returns (sh: nat, sl: nat, ghost k: nat)
    requires ah < w && al < w && bh < w && bl < w
    ensures sh < w && sl < w && k <= 1
    ensures (ah * w + al) + (bh * w + bl) == k * (w * w) + (sh * w + sl)
  {
    WrappedSum(bl, al, w);
    var x := AddWord(al, bl, w);
    var carry := if x < al then 1 else 0;
    WrapOnce(ah + bh + carry, w);
    sh, sl := (ah + bh + carry) % w, x;
    k := if ah + bh + carry >= w then 1 else 0;
    SumWords(w, ah, al, bh, bl, sh, sl, carry, k);
  }

  lemma {:induction false} SumWords(w: nat, ah: nat, al: nat, bh: nat, bl: nat, sh: nat, sl: nat, carry: nat, k: nat)
    requires al + bl == carry * w + sl && ah + bh + carry == k * w + sh
    ensures (ah * w + al) + (bh * w + bl) == k * (w * w) + (sh * w + sl)
  {
    assert (ah + bh + carry) * w == k * (w * w) + sh * w;
    assert (ah + bh + carry) * w == ah * w + bh * w + carry * w;
  }

  /** `sub_ddmmss`: the difference of two double words; `k` is the borrow of the high word. */
  method SubDdmmss(w: nat, ah: nat, al: nat, bh: nat, bl: nat) returns (sh: nat, sl: nat, ghost k: nat)
    requires ah < w && al < w && bh < w && bl < w
    ensures sh < w && sl < w && k <= 1
    ensures (ah * w + al) + k * (w * w) == (bh * w + bl) + (sh * w + sl)
  {
    WrapOnce(al + w - bl, w);
    var x := (al + w - bl) % w;
    var borrow := if x > al then 1 else 0;
    WrapTwice(ah + 2 * w - bh - borrow, w);
    sh, sl := (ah + 2 * w - bh - borrow) % w, x;
    k := if ah < bh + borrow then 1 else 0;
    SumWords(w, bh, bl, sh, sl, ah, al, borrow, k);
  }

  lemma {:induction false} WrapTwice(x: nat, w: nat)
    requires w <= x < 3 * w
    ensures x % w == if x >= 2 * w then x - 2 * w else x - w
  {
    DivModUnique(x, w, if x >= 2 * w then 2 else 1, if x >= 2 * w then x - 2 * w else x - w);
  }

  /** The loop invariant: the partial sum plus the shifted multiplicand times the multiplier bits left. */
  ghost predicate Multiplying(n: nat, i: nat, p: nat, s: nat, m: nat, vl: nat, u: nat) {
    i < n && vl < Pow2(n - i) && m == Times(u, Pow2(i)) && s + Times(m, vl) == p
  }

  lemma {:induction false} NextMultiple(n: nat, i: nat, p: nat, s: nat, m: nat, vl: nat, u: nat)
    requires Multiplying(n, i, p, s, m, vl, u)
    ensures 2 * m == Times(u, Pow2(i + 1)) && vl / 2 < Pow2(n - (i + 1))
    ensures (if vl % 2 == 1 then s + m else s) + Times(2 * m, vl / 2) == p
    ensures vl % 2 == 1 ==> s + m <= p
  {
    var v := vl / 2;
    TimesAddsRight(u, Pow2(i), Pow2(i));
    TimesAdds(m, m, v);
    TimesAddsRight(m, v, v);
    assert vl % 2 == 1 ==> vl == (v + v) + 1;
  }

  lemma {:induction false} MultipleFits(n: nat, i: nat, u: nat, m: nat)
    requires i < n && u < Pow2(n) && m == Times(u, Pow2(i))
    ensures 2 * m < Pow2(n) * Pow2(n)
  {
    TimesIs(u, Pow2(i));
    DoubledFactor(u, Pow2(i));
    Pow2Monotone(i + 1, n);
    MulMonotone(Pow2(i + 1), Pow2(n), u);
    MulMonotone(u + 1, Pow2(n), Pow2(n));
    assert Pow2(i + 1) * u == u * Pow2(i + 1) && Pow2(n) * u == u * Pow2(n);
  }

  /** The low-half product of `__multi3`: two words multiplied into a double word by shift and add. */
  method MultiplyLow(n: nat, w: nat, u: nat, v: nat) returns (wh: nat, wl: nat)
    requires n > 0 && w == Pow2(n) && u < w && v < w
    ensures Times(wh, w) + wl == Times(u, v) && wh < w && wl < w
  {
    TimesIs(u, v); TimesIs(0, w);
    var ul: nat, vl: nat, th: nat := u, v, 0;
    wl, wh := 0, 0;
    ghost var i: nat, s: nat, m: nat := 0, 0, u;
    ProductBelow(u, v, w);
    while true
      invariant Multiplying(n, i, Times(u, v), s, m, vl, u)
      invariant Is(w, wh, wl, s) && Is(w, th, ul, m)
      decreases n - i
    {
      NextMultiple(n, i, Times(u, v), s, m, vl, u);
      MultipleFits(n, i, u, m);
      DoubleShift(n, w, th, ul, m);
      var newWl := AddWord(wl, ul, w);
      var th2x := (2 * th) % w;
      if vl % 2 == 1 {
        AddDouble(w, wh, wl, th, ul, s, m);
        s := s + m;
      }
      th := AddWord(th, wh, w);
      if vl % 2 == 1 {
        var carry := if newWl < wl then 1 else 0;
        wl := newWl;
        wh := (carry + th) % w;
      }
      var msb := Shr(ul, n - 1);
      vl := vl / 2;
      ul := (2 * ul) % w;
      th := BitOr(msb, th2x);
      i, m := i + 1, 2 * m;
      if vl == 0 {
        break;
      }
    }
  }

  /** Adds a word product into a word unless `y` is zero; `k` counts the multiples of the modulus lost. */
  method AddProduct(w: nat, s: nat, x: nat, y: nat) returns (t: nat, ghost k: nat)
    requires s < w
    ensures t < w && s + Times(x, y) == Times(k, w) + t
  {
    if y == 0 {
      TimesIs(0, w);
      t, k := s, 0;
    } else {
      TimesIs(x, y);
      t := (s + (x * y) % w) % w;
      k := LostMultiples(w, s, x * y);
    }
  }

  lemma {:induction false} LostMultiples(w: nat, s: nat, p: nat) returns (k: nat)
    requires s < w
    ensures var t := (s + p % w) % w; t < w && s + p == Times(k, w) + t
  {
    var q, r := p / w, p % w;
    TimesIs(q, w);
    WrappedSum(s, r, w);
    k := if s + r >= w then q + 1 else q;
    OneMore(q, w);
  }

  lemma {:induction false} OneMore(q: nat, w: nat)
    ensures Times(q + 1, w) == Times(q, w) + w
  {
    TimesAdds(q, 1, w);
    TimesIs(1, w);
  }

  lemma {:induction false} CrossProducts(w: nat, uh: nat, ul: nat, vh: nat, vl: nat, wh0: nat, wh: nat, wl: nat, k: nat)
    requires wh0 + Times(vl, uh) + Times(ul, vh) == Times(k, w) + wh
    requires Times(wh0, w) + wl == Times(ul, vl)
    ensures Times(Times(uh, w) + ul, Times(vh, w) + vl)
            == Times(Times(uh, vh) + k, Times(w, w)) + (Times(wh, w) + wl)
  {
    ExpandProduct(w, uh, ul, vh, vl);
    TimesAdds(Times(uh, vh), k, Times(w, w));
    SumMiddle(w, Times(vl, uh), Times(ul, vh), wh0, wh, k);
  }

  lemma {:induction false} ExpandProduct(w: nat, uh: nat, ul: nat, vh: nat, vl: nat)
    ensures Times(Times(uh, w) + ul, Times(vh, w) + vl)
            == Times(Times(uh, vh), Times(w, w)) + (Times(Times(vl, uh), w) + Times(Times(ul, vh), w)) + Times(ul, vl)
  {
    TimesAdds(Times(uh, w), ul, Times(vh, w) + vl);
    ExpandHigh(w, uh, vh, vl);
    TimesAddsRight(ul, Times(vh, w), vl);
    TimesAssociates(ul, vh, w);
  }

  lemma {:induction false} ExpandHigh(w: nat, uh: nat, vh: nat, vl: nat)
    ensures Times(Times(uh, w), Times(vh, w) + vl) == Times(Times(uh, vh), Times(w, w)) + Times(Times(vl, uh), w)
  {
    TimesAddsRight(Times(uh, w), Times(vh, w), vl);
    TimesSwaps(uh, w, vl);
    TimesCommutes(vl, uh);
    SquareOfBase(w, uh, vh);
  }

  lemma {:induction false} SumMiddle(w: nat, y: nat, z: nat, wh0: nat, wh: nat, k: nat)
    requires wh0 + y + z == Times(k, w) + wh
    ensures Times(wh0, w) + (Times(y, w) + Times(z, w)) == Times(k, Times(w, w)) + Times(wh, w)
  {
    TimesAdds3(wh0, y, z, w);
    ScaleWord(w, wh, k, wh0 + y + z);
  }

  lemma {:induction false} ScaleWord(w: nat, wh: nat, k: nat, t: nat)
    requires t == Times(k, w) + wh
    ensures Times(t, w) == Times(k, Times(w, w)) + Times(wh, w)
  {
    TimesAdds(Times(k, w), wh, w);
    TimesAssociates(k, w, w);
  }

  lemma {:induction false} SquareOfBase(w: nat, x: nat, y: nat)
    ensures Times(Times(x, w), Times(y, w)) == Times(Times(x, y), Times(w, w))
  {
    TimesAssociates(Times(x, w), y, w);
    TimesSwaps(x, w, y);
    TimesAssociates(Times(x, y), w, w);
  }

  /** `__multi3`: the product of two double words, modulo the double word. */
  method Multi3(n: nat, w: nat, uh: nat, ul: nat, vh: nat, vl: nat) returns (wh: nat, wl: nat)
    requires n > 0 && w == Pow2(n) && uh < w && ul < w && vh < w && vl < w
    ensures wh < w && wl < w
    ensures ((uh * w + ul) * (vh * w + vl)) % (w * w) == wh * w + wl
  {
    wh, wl := MultiplyLow(n, w, ul, vl);
    ghost var wh0 := wh;
    ghost var k1, k2;
    wh, k1 := AddProduct(w, wh, vl, uh);
    wh, k2 := AddProduct(w, wh, ul, vh);
    TimesAdds(k1, k2, w);
    CrossProducts(w, uh, ul, vh, vl, wh0, wh, wl, k1 + k2);
    ReadProduct(w, uh, ul, vh, vl, Times(uh, vh) + (k1 + k2), wh, wl);
  }

  lemma {:induction false} ReadProduct(w: nat, uh: nat, ul: nat, vh: nat, vl: nat, k: nat, wh: nat, wl: nat)
    requires wh < w && wl < w
    requires Times(Times(uh, w) + ul, Times(vh, w) + vl) == Times(k, Times(w, w)) + (Times(wh, w) + wl)
    ensures ((uh * w + ul) * (vh * w + vl)) % (w * w) == wh * w + wl
  {
    SquareBound(w, wh, wl);
    TimesIs(uh, w); TimesIs(vh, w); TimesIs(w, w); TimesIs(wh, w);
    TimesIs(uh * w + ul, vh * w + vl);
    TimesIs(k, w * w);
    DivModUnique((uh * w + ul) * (vh * w + vl), w * w, k, wh * w + wl);
  }
}
