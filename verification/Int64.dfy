/**
 Counting zeros and 64-bit division in software (`__clzsi2`, `__ctzsi2`, `__udivmoddi4` and the signed
 wrappers). A machine word is a natural below its modulus; every wrap-around is written out.
 */
module Int64 {
  import opened Bits
  import opened Truncation

  const B32: int := 0x1_0000_0000
  const B63: int := 0x8000_0000_0000_0000
  const B64: int := 0x1_0000_0000_0000_0000

  type u32 = x: nat | x < 0x1_0000_0000
  type u64 = x: nat | x < 0x1_0000_0000_0000_0000
  type s64 = x: int | -0x8000_0000_0000_0000 <= x < 0x8000_0000_0000_0000

  /** A 64-bit word as its two halves (`udwords`). */
  datatype UDWords = UDWords(high: u32, low: u32) {
    function All(): u64 { high * 0x1_0000_0000 + low }
  }

  function Halves(x: u64): (r: UDWords)
    ensures r.All() == x
  {
    UDWords(x / 0x1_0000_0000, x % 0x1_0000_0000)
  }

  lemma {:induction false} Powers()
    ensures Pow2(0) == 1 && Pow2(1) == 2 && Pow2(2) == 4 && Pow2(4) == 0x10 && Pow2(8) == 0x100
    ensures Pow2(16) == 0x1_0000 && Pow2(31) == 0x8000_0000 && Pow2(32) == B32
    ensures Pow2(63) == B63 && Pow2(64) == B64
  {
    assert Pow2(8) == 0x100;
    assert Pow2(16) == 0x1_0000;
    assert Pow2(24) == 0x100_0000;
    assert Pow2(32) == 0x1_0000_0000;
    assert Pow2(40) == 0x100_0000_0000;
    assert Pow2(48) == 0x1_0000_0000_0000;
    assert Pow2(56) == 0x100_0000_0000_0000;
    assert Pow2(64) == 0x1_0000_0000_0000_0000;
  }

  lemma {:induction false} Power32()
    ensures Pow2(32) == B32
  {
    Powers();
  }

  // ---- Counting zeros ----

  /** One stage of `__clzsi2`: if the upper half of the 2k-bit window is empty keep the lower half,
      otherwise move the upper half down. */
  method ClzStage(x: u32, k: nat, mask: u32) returns (y: u32, t: nat)
    requires k > 0 && x < Pow2(2 * k) && mask == Shl(Pow2(k) - 1, k)
    ensures y < Pow2(k) && t <= k && BitLen(x) == BitLen(y) + k - t
  {
    AndShifted(x, Pow2(k) - 1, k);
    AndMask(Shr(x, k), k);
    ShlZero(Low(Shr(x, k), k), k);
    Pow2Adds(k, k);
    ShrBelow(x, k, k);
    LowOfSmall(Shr(x, k), k);
    SmallIffShrZero(x, k);
    t := if BitAnd(x, mask) == 0 then k else 0;
    if t == 0 {
      ShrIsQuotient(x, k);
      BitLenShift(x, k);
    }
    ShrDecreases(x, k - t);
    y := Shr(x, k - t);
  }

  lemma {:induction false} ShlZero(x: nat, k: nat)
    ensures Shl(x, k) == 0 <==> x == 0
  {
    if k > 0 {
      ShlZero(x, k - 1);
    }
  }

  lemma {:induction false} LowOfSmall(x: nat, k: nat)
    requires x < Pow2(k)
    ensures Low(x, k) == x
  {
    if k > 0 {
      LowOfSmall(x / 2, k - 1);
    }
  }

  lemma {:induction false} SmallIffShrZero(x: nat, k: nat)
    ensures x < Pow2(k) <==> Shr(x, k) == 0
  {
    if k > 0 {
      SmallIffShrZero(x / 2, k - 1);
    }
  }

  /** The branch-free last step of `__clzsi2`. */
  lemma {:induction false} ClzLast(x: nat)
    requires x < 4
    ensures BitAnd((2 - x) % B32, if BitAnd(x, 2) == 0 then B32 - 1 else 0) == 2 - BitLen(x)
    ensures BitLen(x) <= 2
  {
    assert x == 0 || x == 1 || x == 2 || x == 3;
    AndOnes((2 - x) % B32);
  }

  lemma {:induction false} AndOnes(x: nat)
    requires x < B32
    ensures BitAnd(x, B32 - 1) == x
  {
    Powers();
    AndMask(x, 32);
    LowOfSmall(x, 32);
  }

  /** The number of leading zeros of a 32-bit word; 32 for zero. */
  method ClzSI2(a: u32) returns (r: nat)
    ensures r == 32 - BitLen(a) && BitLen(a) <= 32
  {
    Powers();
    Masks();
    var x, t := ClzStage(a, 16, 0xFFFF0000);
    r := t;
    x, t := ClzStage(x, 8, 0xFF00);
    r := r + t;
    x, t := ClzStage(x, 4, 0xF0);
    r := r + t;
    x, t := ClzStage(x, 2, 0xC);
    r := r + t;
    ClzLast(x);
    r := r + BitAnd((2 - x) % B32, if BitAnd(x, 2) == 0 then B32 - 1 else 0);
  }

  lemma {:induction false} Masks()
    ensures Shl(Pow2(16) - 1, 16) == 0xFFFF0000 && Shl(Pow2(8) - 1, 8) == 0xFF00
    ensures Shl(Pow2(4) - 1, 4) == 0xF0 && Shl(Pow2(2) - 1, 2) == 0xC
  {
    Powers();
    ShlIsProduct(0xFFFF, 16);
    ShlIsProduct(0xFF, 8);
    ShlIsProduct(0xF, 4);
    ShlIsProduct(3, 2);
  }

  /** One stage of `__ctzsi2`: if the low k bits are empty, shift them out. */
  method CtzStage(x: u32, k: nat, mask: u32) returns (y: u32, t: nat)
    requires Low(x, 2 * k) != 0 && mask == Pow2(k) - 1
    ensures x > 0 && y > 0 && Low(y, k) != 0 && Ctz(x) == Ctz(y) + t
  {
    AndMask(x, k);
    LowZero(2 * k);
    LowSplit(x, k, k);
    ShlZero(Low(Shr(x, k), k), k);
    LowZero(k);
    t := if BitAnd(x, mask) == 0 then k else 0;
    if t == k {
      LowIsRemainder(x, k);
      ShrIsQuotient(x, k);
      CtzShift(x, k);
    }
    ShrDecreases(x, t);
    y := Shr(x, t);
  }

  lemma {:induction false} LowZero(k: nat)
    ensures Low(0, k) == 0
  {
    if k > 0 {
      LowZero(k - 1);
    }
  }

  lemma {:induction false} LowSplit(x: nat, j: nat, k: nat)
    ensures Low(x, j + k) == Shl(Low(Shr(x, j), k), j) + Low(x, j)
  {
    if j > 0 {
      LowSplit(x / 2, j - 1, k);
    }
  }

  /** The branch-free last step of `__ctzsi2`. */
  method CtzLast(y: u32) returns (r: nat)
    requires Low(y, 2) != 0
    ensures y > 0 && r == Ctz(y)
  {
    LowZero(2);
    AndMask(y, 2);
    var x := BitAnd(y, 3);
    assert Pow2(2) == 4;
    assert Low(y, 2) == 2 * Low(y / 2, 1) + y % 2 && Low(y / 2, 1) == (y / 2) % 2;
    assert x == 1 || x == 2 || x == 3;
    AndOnes((2 - Shr(x, 1)) % B32);
    r := BitAnd((2 - Shr(x, 1)) % B32, if BitAnd(x, 1) == 0 then B32 - 1 else 0);
  }

  lemma {:induction false} MaskPowers()
    ensures Pow2(16) == 0x1_0000 && Pow2(8) == 0x100 && Pow2(4) == 0x10 && Pow2(2) == 4
  {
    Powers();
  }

  lemma {:induction false} WordBounds(a: u32)
    requires a != 0
    ensures Low(a, 32) != 0 && Ctz(a) < 32
  {
    Powers();
    CtzBound(a, 32);
    LowOfSmall(a, 32);
  }

  /** The number of trailing zeros of a nonzero 32-bit word. */
  method CtzSI2(a: u32) returns (r: nat)
    requires a != 0
    ensures r == Ctz(a) && r < 32
  {
    WordBounds(a);
    MaskPowers();
    var x, t0 := CtzStage(a, 16, 0xFFFF);
    var y, t1 := CtzStage(x, 8, 0xFF);
    var z, t2 := CtzStage(y, 4, 0xF);
    var w, t3 := CtzStage(z, 2, 3);
    var last := CtzLast(w);
    r := t0 + t1 + t2 + t3 + last;
  }

  // ---- Word shifts ----

  /** Shifts of a 32-bit word; the count must be below 32, as the language demands. */
  function Shl32(x: u32, k: nat): u32
    requires k < 32
  {
    Shl(x, k) % 0x1_0000_0000
  }

  function Shr32(x: u32, k: nat): u32
    requires k < 32
  {
    ShrDecreases(x, k);
    Shr(x, k)
  }

  /** The bit pattern of `x` shifted left by 32 - t with `y`'s upper bits below it. */
  function Funnel(x: u32, y: u32, t: nat): (r: u32)
    requires 0 < t < 32
  {
    FunnelValue(x, y, t);
    BitOr(Shl32(x, 32 - t), Shr32(y, t))
  }

  lemma {:induction false} ShlConstants(x: nat)
    ensures Shl(x, 1) == 2 * x && Shl(x, 32) == x * B32 && Shl(x, 63) == x * B63
  {
    Powers();
    ShlIsProduct(x, 32);
    ShlIsProduct(x, 63);
  }

  lemma {:induction false} FunnelValue(x: u32, y: u32, t: nat)
    requires 0 < t < 32
    ensures Shl32(x, 32 - t) == Shl(Low(x, t), 32 - t)
    ensures BitOr(Shl32(x, 32 - t), Shr32(y, t)) == Shl(Low(x, t), 32 - t) + Shr(y, t) < B32
  {
    Power32();
    var h, l := Shr(x, t), Low(x, t);
    SplitSum(x, t);
    ShlAdd(Shl(h, t), l, 32 - t);
    ShlShl(h, t, 32 - t);
    ShlConstants(h);
    ShlBelow(l, t, 32 - t);
    DivModUnique(Shl(x, 32 - t), B32, h, Shl(l, 32 - t));
    ShrBelow(y, t, 32 - t);
    OrDisjoint(l, Shr(y, t), 32 - t);
  }

  lemma {:induction false} Distribute(h: nat, p: nat, l: nat, r: nat)
    ensures (h * p + l) * r == h * (p * r) + l * r
  {
  }

  // ---- The division loop ----

  /** The loop state after the top bits of `n` down to bit `k` were divided by `d`: `quo` is their
      quotient, whose lowest bit waits in `carry`, and `r` their remainder; `q` holds the bits still to
      come above the quotient bits. A divisor above 2^63 allows a single step, from remainder 0. */
  ghost predicate Dividing(n: u64, d: u64, k: nat, r: u64, q: u64, carry: nat, quo: nat) {
    && k < 64
    && Shr(n, k) == quo * d + r
    && r < d
    && carry == quo % 2
    && q == Shl(Low(n, k), 64 - k) + quo / 2
    && (d > B63 ==> k <= 1 && (k == 1 ==> quo == 0 && n >= B63))
  }

  /** The top bit of q is bit k - 1 of n, and the rest are the lower bits above the quotient. */
  lemma {:induction false} TopBit(n: nat, k: nat, h: nat)
    requires 0 < k < 64 && h < Pow2(64 - k)
    ensures var q := Shl(Low(n, k), 64 - k) + h;
            q / B63 == Shr(n, k - 1) % 2 && q % B63 == Shl(Low(n, k - 1), 64 - k) + h
  {
    var b, l := Shr(n, k - 1) % 2, Low(n, k - 1);
    LowSplit(n, k - 1, 1);
    assert Low(Shr(n, k - 1), 1) == b;
    ShlAdd(Shl(b, k - 1), l, 64 - k);
    ShlShl(b, k - 1, 64 - k);
    ShlConstants(b);
    SplitSum(n, k - 1);
    ShlBelow(l, k - 1, 64 - k);
    Powers();
    DivModUnique(Shl(Low(n, k), 64 - k) + h, B63, b, Shl(l, 64 - k) + h);
  }

  /** One shift of r:q to the left keeps the state, one bit further down, before the subtraction; the
      remainder does not overflow. */
  lemma {:induction false} ShiftedState(n: u64, d: u64, k: nat, r: u64, q: u64, carry: nat, quo: nat)
    requires Dividing(n, d, k, r, q, carry, quo) && k > 0
    ensures var r' := 2 * r + q / B63;
            && r' < B64 && r' < 2 * d
            && Shr(n, k - 1) == 2 * quo * d + r'
            && (2 * q) % B64 + carry == Shl(Low(n, k - 1), 64 - (k - 1)) + quo
            && (d > B63 ==> r' >= B63)
  {
    QuotientIsSmall(n, d, k, r, quo);
    TopBit(n, k, quo / 2);
    ShrHalf(n, k - 1);
    ShrDecreases(n, k - 1);
    ShiftedRemainder(n, d, k, r, q / B63, quo);
    ShiftedBits(q, Shl(Low(n, k - 1), 64 - k), quo, carry);
  }

  lemma {:induction false} ShiftedRemainder(n: u64, d: u64, k: nat, r: u64, bit: nat, quo: nat)
    requires k > 0 && Shr(n, k) == quo * d + r && r < d && bit <= 1
    requires Shr(n, k - 1) == 2 * Shr(n, k) + bit <= n
    requires d > B63 ==> k == 1 && quo == 0 && n >= B63
    ensures Shr(n, k - 1) == 2 * quo * d + (2 * r + bit)
    ensures 2 * r + bit < B64 && 2 * r + bit < 2 * d && (d > B63 ==> 2 * r + bit >= B63)
  {
    assert 2 * quo * d == 2 * (quo * d) >= 0;
  }

  lemma {:induction false} ShiftedBits(q: u64, bits: nat, quo: nat, carry: nat)
    requires q % B63 == bits + quo / 2 && carry == quo % 2
    ensures (2 * q) % B64 + carry == 2 * bits + quo
  {
    assert (2 * q) % B64 == 2 * (q % B63);
  }

  lemma {:induction false} QuotientIsSmall(n: u64, d: u64, k: nat, r: u64, quo: nat)
    requires k < 64 && Shr(n, k) == quo * d + r && r < d
    ensures quo < Pow2(64 - k)
  {
    Powers();
    ShrBelow(n, k, 64 - k);
    MulMonotone(1, d, quo);
  }

  /** The sign of d - r - 1, computed with wrap-around, tells whether r >= d. */
  lemma {:induction false} SignTrick(d: u64, r: u64)
    requires d > 0 && r < 2 * d && (d > B63 ==> r >= B63)
    ensures (d - r - 1) % B64 >= B63 <==> r >= d
  {
    if r < d {
      assert (d - r - 1) % B64 == d - r - 1;
    } else {
      assert (d - r - 1) % B64 == d - r - 1 + B64;
    }
  }

  lemma {:induction false} ShlOne(x: u32)
    ensures Shl32(x, 1) == 2 * (x % 0x8000_0000) == (2 * x) % B32
  {
    ShlConstants(x);
  }

  lemma {:induction false} ShrTop(y: u32)
    ensures Shr32(y, 31) == y / 0x8000_0000 <= 1
  {
    Powers();
    ShrIsQuotient(y, 31);
  }

  /** `(x << 1) | (y >> 31)` on words. */
  lemma {:induction false} ShiftIn(x: u32, y: u32)
    ensures BitOr(Shl32(x, 1), Shr32(y, 31)) == (2 * x) % B32 + y / 0x8000_0000 < B32
  {
    ShlOne(x);
    ShrTop(y);
    OrEven(x % 0x8000_0000, y / 0x8000_0000);
  }

  lemma {:induction false} OrEven(h: nat, c: nat)
    requires c <= 1
    ensures BitOr(2 * h, c) == 2 * h + c
  {
    assert Pow2(1) == 2 && Shl(h, 1) == 2 * h;
    OrDisjoint(h, c, 1);
  }

  lemma {:induction false} ShiftInCarry(x: u32, c: nat)
    requires c <= 1
    ensures BitOr(Shl32(x, 1), c) == (2 * x) % B32 + c < B32
  {
    ShlOne(x);
    OrEven(x % 0x8000_0000, c);
  }

  lemma {:induction false} Double(x: u32)
    ensures 2 * x == (x / 0x8000_0000) * B32 + (2 * x) % B32 && x / 0x8000_0000 <= 1
  {
  }

  lemma {:induction false} TopBitOfHalves(qh: u32, ql: u32)
    ensures (qh * B32 + ql) / B63 == qh / 0x8000_0000
  {
  }

  /** Shifting four words as one 128-bit number. */
  lemma {:induction false} ShiftHalves(rh: u32, rl: u32, qh: u32, ql: u32, c: nat)
    requires c <= 1 && 2 * (rh * B32 + rl) + (qh * B32 + ql) / B63 < B64
    ensures ((2 * rh) % B32 + rl / 0x8000_0000) * B32 + ((2 * rl) % B32 + qh / 0x8000_0000)
            == 2 * (rh * B32 + rl) + (qh * B32 + ql) / B63
    ensures ((2 * qh) % B32 + ql / 0x8000_0000) * B32 + ((2 * ql) % B32 + c) == (2 * (qh * B32 + ql)) % B64 + c
  {
    TopBitOfHalves(qh, ql);
    Double(rl);
    Double(ql);
    Double(qh);
    var t := ((2 * qh) % B32 + ql / 0x8000_0000) * B32 + (2 * ql) % B32;
    assert 2 * (qh * B32 + ql) == (qh / 0x8000_0000) * B64 + t;
    DivModUnique(2 * (qh * B32 + ql), B64, qh / 0x8000_0000, t);
  }

  /** The low word of the sign mask, and the masked divisor. */
  lemma {:induction false} SignMask(d: u64, s: u64)
    requires s == 0 || s == B64 - 1
    ensures BitAnd(s, 1) == (if s == 0 then 0 else 1) && BitAnd(d, s) == if s == 0 then 0 else d
  {
    Powers();
    if s != 0 {
      AndMask(d, 64);
      LowOfSmall(d, 64);
      AndMask(s, 1);
      LowIsRemainder(s, 1);
    }
  }

  lemma {:induction false} NextState(n: u64, d: u64, k: nat, quo: nat, r: u64, q: u64, carry: nat)
    requires 0 < k < 64 && r < 2 * d
    requires Shr(n, k - 1) == 2 * quo * d + r
    requires q == Shl(Low(n, k - 1), 64 - (k - 1)) + quo
    requires carry == if r >= d then 1 else 0
    requires d > B63 ==> k == 1
    ensures Dividing(n, d, k - 1, r - carry * d, q, carry, 2 * quo + carry)
  {
    Distribute(2 * quo, 1, carry, d);
    assert (2 * quo + carry) / 2 == quo && (2 * quo + carry) % 2 == carry;
  }

  lemma {:induction false} EvenMod(x: u64)
    ensures (2 * x) % B64 == 2 * (x % B63)
  {
  }

  lemma {:induction false} ShiftInCarry64(x: u64, c: nat)
    requires c <= 1
    ensures BitOr(Shl(x, 1) % B64, c) == (2 * x) % B64 + c < B64
  {
    ShlConstants(x);
    EvenMod(x);
    OrEven(x % B63, c);
  }

  /** r:q = ((r:q) << 1) | carry, word by word. */
  method ShiftLeft(r: UDWords, q: UDWords, carry: nat) returns (r': UDWords, q': UDWords)
    requires carry <= 1 && 2 * r.All() + q.All() / B63 < B64
    ensures r'.All() == 2 * r.All() + q.All() / B63
    ensures q'.All() == (2 * q.All()) % B64 + carry
  {
    ShiftIn(r.high, r.low); ShiftIn(r.low, q.high); ShiftIn(q.high, q.low); ShiftInCarry(q.low, carry);
    ShiftHalves(r.high, r.low, q.high, q.low, carry);
    r' := UDWords(BitOr(Shl32(r.high, 1), Shr32(r.low, 31)), r.low);
    r' := UDWords(r'.high, BitOr(Shl32(r.low, 1), Shr32(q.high, 31)));
    q' := UDWords(BitOr(Shl32(q.high, 1), Shr32(q.low, 31)), q.low);
    q' := UDWords(q'.high, BitOr(Shl32(q.low, 1), carry));
  }

  /** Subtracts `d` if it fits, without a branch. */
  method SubtractIfFits(d: u64, r: u64) returns (r': u64, carry: nat)
    requires d > 0 && r < 2 * d && (d > B63 ==> r >= B63)
    ensures carry == if r >= d then 1 else 0
    ensures r' == r - carry * d
  {
    SignTrick(d, r);
    var s := if (d - r - 1) % B64 >= B63 then B64 - 1 else 0;
    SignMask(d, s);
    carry := BitAnd(s, 1);
    r' := (r - BitAnd(d, s)) % B64;
  }

  /** One turn of the loop. */
  method DivideStep(ghost n: u64, d: u64, ghost k: nat, r: UDWords, q: UDWords, carry: nat, ghost quo: nat)
    returns (r': UDWords, q': UDWords, carry': nat, ghost quo': nat)
    requires Dividing(n, d, k, r.All(), q.All(), carry, quo) && k > 0
    ensures Dividing(n, d, k - 1, r'.All(), q'.All(), carry', quo')
  {
    ShiftedState(n, d, k, r.All(), q.All(), carry, quo);
    r', q' := ShiftLeft(r, q, carry);
    ghost var shifted := r'.All();
    var rest;
    rest, carry' := SubtractIfFits(d, r'.All());
    r' := Halves(rest);
    NextState(n, d, k, quo, shifted, q'.All(), carry');
    quo' := 2 * quo + carry';
  }

  /** The shift-subtract loop shared by all general cases of `__udivmoddi4`. */
  method DivideLoop(n: u64, d: u64, sr0: nat, q0: UDWords, r0: UDWords) returns (q: u64, rem: u64)
    requires sr0 > 0 && Dividing(n, d, sr0, r0.All(), q0.All(), 0, 0)
    ensures n == q * d + rem && rem < d
  {
    var r, qq, sr, carry := r0, q0, sr0, 0;
    ghost var quo := 0;
    while sr > 0
      invariant Dividing(n, d, sr, r.All(), qq.All(), carry, quo)
    {
      hide *;
      r, qq, carry, quo := DivideStep(n, d, sr, r, qq, carry, quo);
      sr := sr - 1;
    }
    rem := r.All();
    LastState(n, d, rem, qq.All(), carry, quo);
    ShiftInCarry64(qq.All(), carry);
    q := BitOr(Shl(qq.All(), 1) % B64, carry);
  }

  lemma {:induction false} LastState(n: u64, d: u64, r: u64, q: u64, carry: nat, quo: nat)
    requires Dividing(n, d, 0, r, q, carry, quo)
    ensures n == quo * d + r && (2 * q) % B64 + carry == quo && carry <= 1
  {
    ShlZero(0, 64);
    MulMonotone(1, d, quo);
  }

  // ---- Preparing the loop ----

  lemma {:induction false} StartState(n: u64, d: u64, sr: nat)
    requires d > 0 && n > 0 && 0 < sr < 64 && sr + BitLen(d) == BitLen(n) + 1
    ensures Shr(n, sr) < d && (d > B63 ==> sr == 1 && n >= B63)
  {
    BitLenBounds(n);
    BitLenBounds(d);
    ShrBelow(n, sr, BitLen(d) - 1);
    if d > B63 {
      HugeDivisor(n, d, sr);
    }
  }

  lemma {:induction false} HugeDivisor(n: u64, d: u64, sr: nat)
    requires d > B63 && n > 0 && sr > 0 && sr + BitLen(d) == BitLen(n) + 1
    ensures sr == 1 && n >= B63
  {
    Powers();
    BitLenAtMost(n, 64);
    BitLenShift(d, 63);
    BitLenBounds(n);
  }

  lemma {:induction false} BitLenMonotone(x: nat, y: nat)
    requires x <= y
    ensures BitLen(x) <= BitLen(y)
  {
    if x > 0 {
      BitLenMonotone(x / 2, y / 2);
    }
  }

  lemma {:induction false} HighBitLen(n: UDWords)
    requires n.high != 0
    ensures BitLen(n.All()) == 32 + BitLen(n.high) && BitLen(n.high) > 0
  {
    Power32();
    ShlConstants(n.high);
    SplitUnique(n.All(), 32, n.high, n.low);
    ShrIsQuotient(n.All(), 32);
    BitLenShift(n.All(), 32);
  }

  /** `r` and `q` hold the part of `n` above bit `sr` and, moved to the top, the part below. */
  ghost predicate SplitAt(n: UDWords, sr: nat, r: UDWords, q: UDWords) {
    0 < sr < 64 && IsUpper(n, sr, r) && IsLower(n, sr, q)
  }

  ghost predicate IsUpper(n: UDWords, sr: nat, r: UDWords) { r.All() == Shr(n.All(), sr) }

  ghost predicate IsLower(n: UDWords, sr: nat, q: UDWords)
    requires sr < 64
  {
    q.All() == Shl(Low(n.All(), sr), 64 - sr)
  }

  lemma {:induction false} SmallUpper(n: UDWords, t: nat)
    requires 0 < t < 32
    ensures IsUpper(n, t, UDWords(Shr32(n.high, t), Funnel(n.high, n.low, t)))
  {
    FunnelValue(n.high, n.low, t);
    SmallSplitSum(n.high, n.low, t);
  }

  lemma {:induction false} SmallLower(n: UDWords, t: nat)
    requires 0 < t < 32
    ensures IsLower(n, t, UDWords(Shl32(n.low, 32 - t), 0))
  {
    FunnelValue(n.low, 0, t);
    SmallSplitSum(n.high, n.low, t);
    ShlConstants(Shl(Low(n.low, t), 32 - t));
    ShlShl(Low(n.low, t), 32 - t, 32);
  }

  lemma {:induction false} SmallSplitSum(x: u32, y: u32, t: nat)
    requires 0 < t < 32
    ensures Shr(x * B32 + y, t) == Shr(x, t) * B32 + Shl(Low(x, t), 32 - t) + Shr(y, t)
    ensures Low(x * B32 + y, t) == Low(y, t)
  {
    var upper := Shr(x, t) * B32 + Shl(Low(x, t), 32 - t);
    UpperWord(x, t);
    SplitSum(y, t);
    ShlAdd(upper, Shr(y, t), t);
    SplitUnique(x * B32 + y, t, upper + Shr(y, t), Low(y, t));
  }

  lemma {:induction false} UpperWord(x: u32, t: nat)
    requires 0 < t < 32
    ensures Shl(Shr(x, t) * B32 + Shl(Low(x, t), 32 - t), t) == x * B32
  {
    var h, l := Shr(x, t), Low(x, t);
    ShlConstants(h);
    ShlAdd(h * B32, Shl(l, 32 - t), t);
    ShlShl(h, 32, t); ShlShl(l, 32 - t, t);
    assert Shl(h * B32 + Shl(l, 32 - t), t) == Shl(h, 32 + t) + Shl(l, 32);
    UpperSum(x, t);
  }

  lemma {:induction false} UpperSum(x: nat, t: nat)
    ensures Shl(Shr(x, t), 32 + t) + Shl(Low(x, t), 32) == x * B32
  {
    SplitSum(x, t);
    ShlConstants(x);
    ShlShl(Shr(x, t), t, 32);
    ShlAdd(Shl(Shr(x, t), t), Low(x, t), 32);
  }

  lemma {:induction false} WordSplit(n: UDWords)
    ensures SplitAt(n, 32, UDWords(0, n.high), UDWords(n.low, 0))
  {
    Power32();
    ShlConstants(n.high);
    ShlConstants(n.low);
    SplitUnique(n.All(), 32, n.high, n.low);
  }

  lemma {:induction false} LargeUpper(n: UDWords, t: nat)
    requires 0 < t < 32
    ensures IsUpper(n, 32 + t, UDWords(0, Shr32(n.high, t)))
  {
    LargeSplitSum(n.high, n.low, t);
  }

  lemma {:induction false} LargeLower(n: UDWords, t: nat)
    requires 0 < t < 32
    ensures IsLower(n, 32 + t, UDWords(Funnel(n.high, n.low, t), Shl32(n.low, 32 - t)))
  {
    LargeSplitSum(n.high, n.low, t);
    LargeWords(n, t);
    assert 32 - t == 64 - (32 + t);
  }

  lemma {:induction false} LargeWords(n: UDWords, t: nat)
    requires 0 < t < 32
    ensures UDWords(Funnel(n.high, n.low, t), Shl32(n.low, 32 - t)).All()
            == Shl(Low(n.high, t) * B32 + n.low, 32 - t)
  {
    FunnelValue(n.high, n.low, t);
    FunnelValue(n.low, 0, t);
    LargeRest(Low(n.high, t), n.low, t);
  }

  lemma {:induction false} LargeSplitSum(x: u32, y: u32, t: nat)
    requires 0 < t < 32
    ensures Shr(x * B32 + y, 32 + t) == Shr(x, t)
    ensures Low(x * B32 + y, 32 + t) == Low(x, t) * B32 + y
  {
    var h, l := Shr(x, t), Low(x, t);
    SplitSum(x, t);
    Power32();
    ShlConstants(x); ShlConstants(l);
    ShlAdd(Shl(h, t), l, 32);
    ShlShl(h, t, 32);
    ShlBelow(l, t, 32);
    SplitUnique(x * B32 + y, 32 + t, h, l * B32 + y);
  }

  lemma {:induction false} LargeRest(l: nat, y: u32, t: nat)
    requires 0 < t < 32
    ensures Shl(l * B32 + y, 32 - t) == (Shl(l, 32 - t) + Shr(y, t)) * B32 + Shl(Low(y, t), 32 - t)
  {
    SplitSum(y, t);
    ShlConstants(l); ShlConstants(Shr(y, t)); ShlConstants(Shl(l, 32 - t));
    ShlAdd(l * B32, y, 32 - t);
    ShlAdd(Shl(Shr(y, t), t), Low(y, t), 32 - t);
    ShlShl(Shr(y, t), t, 32 - t); ShlShl(l, 32, 32 - t); ShlShl(l, 32 - t, 32);
  }

  lemma {:induction false} MaskLow(x: u32, d: u32)
    requires d > 0 && BitAnd(d, d - 1) == 0
    ensures d == Pow2(Ctz(d)) && BitAnd(x, d - 1) == Low(x, Ctz(d)) < d
    ensures x == Shr(x, Ctz(d)) * d + BitAnd(x, d - 1)
  {
    PowerOfTwoTest(d);
    AndMask(x, Ctz(d));
    SplitSum(x, Ctz(d));
    ShlIsProduct(Shr(x, Ctz(d)), Ctz(d));
  }

  lemma {:induction false} FewerBitsIsLess(n: UDWords, d: UDWords)
    requires n.high != 0 && d.high != 0 && BitLen(n.high) < BitLen(d.high)
    ensures n.All() < d.All()
  {
    BitLenBounds(n.high);
    BitLenBounds(d.high);
    Pow2Monotone(BitLen(n.high), BitLen(d.high) - 1);
    HighDecides(n, d);
  }

  lemma {:induction false} HighDecides(n: UDWords, d: UDWords)
    requires n.high < d.high
    ensures n.All() < d.All()
  {
    assert (n.high + 1) * B32 <= d.high * B32;
  }

  /** The word division the language provides. */
  method WordDivMod(x: u32, y: u32) returns (q: u32, r: u32)
    requires y != 0
    ensures x == q * y + r && r < y
  {
    MulMonotone(1, y, x / y);
    q, r := x / y, x % y;
  }

  /** 64-bit by 64-bit unsigned division, `__udivmoddi4`. The divisor must not be zero. */
  method UDivModDI4(a: u64, b: u64) returns (q: u64, rem: u64)
    requires b != 0
    ensures a == q * b + rem && rem < b
  {
    var n, d := Halves(a), Halves(b);
    if n.high == 0 {
      if d.high == 0 {
        q, rem := LowByLow(a, b);
      } else {
        q, rem := 0, n.low;
      }
    } else if d.low == 0 {
      q, rem := DivideByHighWord(a, b);
    } else if d.high == 0 {
      q, rem := DivideByLowWord(a, b);
    } else {
      q, rem := DivideByBothWords(a, b);
    }
  }

  lemma {:induction false} Rename(x: nat, y: nat, a: nat, b: nat, q: nat, r: nat)
    requires x == a && y == b && x == q * y + r
    ensures a == q * b + r
  {
  }

  /** 0 X / 0 X. */
  method LowByLow(a: u64, b: u64) returns (q: u64, rem: u64)
    requires a < B32 && 0 < b < B32
    ensures a == q * b + rem && rem < b
  {
    var n, d := Halves(a), Halves(b);
    q, rem := WordDivMod(n.low, d.low);
    Rename(n.low, d.low, a, b, q, rem);
  }

  /** Splits `n` at bit `sr`: the upper part becomes the remainder r, the lower part goes to the top of q.
      Each path of the source reaches some of these three forms. */
  method PrepareLoop(n: UDWords, sr: nat) returns (q0: UDWords, r0: UDWords)
    requires 0 < sr < 64
    ensures SplitAt(n, sr, r0, q0)
  {
    if sr == 32 {
      WordSplit(n);
      q0, r0 := UDWords(n.low, 0), UDWords(0, n.high);
    } else if sr < 32 {
      SmallUpper(n, sr); SmallLower(n, sr);
      q0, r0 := UDWords(Shl32(n.low, 32 - sr), 0), UDWords(Shr32(n.high, sr), Funnel(n.high, n.low, sr));
    } else {
      LargeUpper(n, sr - 32); LargeLower(n, sr - 32);
      q0 := UDWords(Funnel(n.high, n.low, sr - 32), Shl32(n.low, 64 - sr));
      r0 := UDWords(0, Shr32(n.high, sr - 32));
    }
  }

  /** The general case: both steps for a divisor with `sr - 1` bits less than the dividend. */
  method DivideBits(a: u64, b: u64, sr: nat) returns (q: u64, rem: u64)
    requires 0 < sr < 64 && a > 0 && b > 0 && sr + BitLen(b) == BitLen(a) + 1
    ensures a == q * b + rem && rem < b
  {
    StartState(a, b, sr);
    var q0, r0 := PrepareLoop(Halves(a), sr);
    q, rem := DivideLoop(a, b, sr, q0, r0);
  }

  /** The cases in which only the high word of the divisor is nonzero. */
  method DivideByHighWord(a: u64, b: u64) returns (q: u64, rem: u64)
    requires a >= B32 && b >= B32 && b % B32 == 0
    ensures a == q * b + rem && rem < b
  {
    var n, d := Halves(a), Halves(b);
    if n.low == 0 {
      q, rem := HighByHigh(a, b);
    } else if BitAnd(d.high, d.high - 1) == 0 {
      q, rem := HighByPower(a, b);
    } else {
      q, rem := HighByOther(a, b);
    }
  }

  /** K X / K 0. */
  method HighByOther(a: u64, b: u64) returns (q: u64, rem: u64)
    requires a >= B32 && b >= B32 && b % B32 == 0 && BitAnd(b / B32, b / B32 - 1) != 0
    ensures a == q * b + rem && rem < b
  {
    var n, d := Halves(a), Halves(b);
    var sr := ShiftCount(n, d);
    NotAPower(d.high);
    if sr > 30 {
      FewerBitsIsLess(n, d);
      q, rem := 0, a;
    } else {
      HighBitLen(n); HighBitLen(d);
      q, rem := DivideBits(a, b, sr + 1);
    }
  }

  /** K 0 / K 0. */
  method HighByHigh(a: u64, b: u64) returns (q: u64, rem: u64)
    requires a % B32 == 0 && b >= B32 && b % B32 == 0
    ensures a == q * b + rem && rem < b
  {
    var n, d := Halves(a), Halves(b);
    var h, l := WordDivMod(n.high, d.high);
    ScaleQuotient(n.high, 0, d.high, h, l);
    q, rem := h, UDWords(l, 0).All();
  }

  lemma {:induction false} ScaleQuotient(x: nat, y: u32, d: nat, h: nat, l: nat)
    requires x == h * d + l && l < d
    ensures x * B32 + y == h * (d * B32) + (l * B32 + y)
    ensures l * B32 + y < d * B32
  {
    assert (h * d) * B32 == h * (d * B32);
  }

  /** K K / 2^k 0. */
  method HighByPower(a: u64, b: u64) returns (q: u64, rem: u64)
    requires b >= B32 && b % B32 == 0 && BitAnd(b / B32, b / B32 - 1) == 0
    ensures a == q * b + rem && rem < b
  {
    var n, d := Halves(a), Halves(b);
    MaskLow(n.high, d.high);
    ScaleQuotient(n.high, n.low, d.high, Shr(n.high, Ctz(d.high)), BitAnd(n.high, d.high - 1));
    rem := UDWords(BitAnd(n.high, d.high - 1), n.low).All();
    var c := CtzSI2(d.high);
    q := Shr32(n.high, c);
  }

  /** The unsigned difference of the leading zeros of the high words; large when it is negative. */
  method ShiftCount(n: UDWords, d: UDWords) returns (sr: u32)
    requires n.high != 0 && d.high != 0
    ensures BitLen(n.high) <= 32
    ensures BitLen(n.high) >= BitLen(d.high) ==> sr == BitLen(n.high) - BitLen(d.high) <= 31
    ensures BitLen(n.high) < BitLen(d.high) ==> sr > 31
  {
    var cd := ClzSI2(d.high);
    var cn := ClzSI2(n.high);
    sr := (cd - cn) % B32;
  }

  lemma {:induction false} NotAPower(d: u32)
    requires d > 0 && BitAnd(d, d - 1) != 0
    ensures BitLen(d) >= 2
  {
    assert BitAnd(1, 0) == 0;
    BitLenMonotone(2, d);
  }

  /** The cases in which only the low word of the divisor is nonzero. */
  method DivideByLowWord(a: u64, b: u64) returns (q: u64, rem: u64)
    requires a >= B32 && 0 < b < B32
    ensures a == q * b + rem && rem < b
  {
    var n, d := Halves(a), Halves(b);
    if BitAnd(d.low, d.low - 1) == 0 {
      q, rem := LowByPower(a, b);
    } else {
      var cd := ClzSI2(d.low);
      var cn := ClzSI2(n.high);
      HighBitLen(n);
      NotAPower(d.low);
      q, rem := DivideBits(a, b, 1 + 32 + cd - cn);
    }
  }

  /** K X / 0 2^c. */
  method LowByPower(a: u64, b: u64) returns (q: u64, rem: u64)
    requires 0 < b < B32 && BitAnd(b, b - 1) == 0
    ensures a == q * b + rem && rem < b
  {
    var n: UDWords := Halves(a);
    MaskLow(n.low, b);
    rem := BitAnd(n.low, b - 1);
    if b == 1 {
      q := a;
      return;
    }
    var c := CtzSI2(b);
    q := UDWords(Shr32(n.high, c), Funnel(n.high, n.low, c)).All();
    LowByPowerValue(n, b, c);
  }

  lemma {:induction false} LowByPowerValue(n: UDWords, d: u32, c: nat)
    requires 0 < c < 32 && d == Pow2(c)
    ensures n.All() == UDWords(Shr32(n.high, c), Funnel(n.high, n.low, c)).All() * d + Low(n.low, c)
  {
    SmallUpper(n, c);
    SmallSplitSum(n.high, n.low, c);
    SplitSum(n.All(), c);
    ShlIsProduct(Shr(n.All(), c), c);
  }

  /** The cases in which both words of the divisor are nonzero. */
  method DivideByBothWords(a: u64, b: u64) returns (q: u64, rem: u64)
    requires a >= B32 && b >= B32
    ensures a == q * b + rem && rem < b
  {
    var n, d := Halves(a), Halves(b);
    var sr := ShiftCount(n, d);
    if sr > 31 {
      FewerBitsIsLess(n, d);
      q, rem := 0, a;
    } else {
      HighBitLen(n); HighBitLen(d);
      q, rem := DivideBits(a, b, sr + 1);
    }
  }

  // ---- Signed division ----

  function ToUnsigned(x: s64): u64 { if x < 0 then x + B64 else x }

  function ToSigned(u: u64): s64 { if u < B63 then u else u - B64 }

  /** Two's complement wrap-around of an integer. */
  function Wrap(x: int): s64 { ToSigned(x % B64) }

  /** `x >> 63` for a signed word: all ones for a negative number. */
  function SignWord(x: s64): u64 { if x < 0 then B64 - 1 else 0 }

  /** `(x ^ s) - s` on words. */
  function Conditional(x: u64, s: u64): u64
    requires s == 0 || s == B64 - 1
  {
    ConditionalNegates(x, s);
    (BitXor(x, s) - s) % 0x1_0000_0000_0000_0000
  }

  /** With the sign mask, `(x ^ s) - s` negates or leaves the word. */
  lemma {:induction false} ConditionalNegates(x: u64, s: u64)
    requires s == 0 || s == B64 - 1
    ensures (BitXor(x, s) - s) % B64 == (if s == 0 then x else (B64 - x) % B64)
  {
    Powers();
    if s != 0 {
      XorOnes(x, 64);
    }
  }

  lemma {:induction false} Magnitude(x: s64)
    ensures Conditional(ToUnsigned(x), SignWord(x)) == Abs(x)
  {
    ConditionalNegates(ToUnsigned(x), SignWord(x));
  }

  lemma {:induction false} XorSigns(s: u64, t: u64)
    requires (s == 0 || s == B64 - 1) && (t == 0 || t == B64 - 1)
    ensures BitXor(s, t) == if s == t then 0 else B64 - 1
  {
    Powers();
    XorOnes(s, 64);
  }

  /** Signed division, `__divdi3`. */
  method DivDI3(a: s64, b: s64) returns (q: s64)
    requires b != 0
    ensures q == Wrap(TruncDiv(a, b))
  {
    var sa, sb := SignWord(a), SignWord(b);
    Magnitude(a); Magnitude(b);
    var ua, ub := Conditional(ToUnsigned(a), sa), Conditional(ToUnsigned(b), sb);
    XorSigns(sa, sb);
    var s := BitXor(sa, sb);
    var uq, rem := UDivModDI4(ua, ub);
    DivModUnique(ua, ub, uq, rem);
    SignedQuotient(uq, s);
    q := ToSigned(Conditional(uq, s));
  }

  lemma {:induction false} SignedQuotient(uq: u64, s: u64)
    requires s == 0 || s == B64 - 1
    ensures ToSigned(Conditional(uq, s)) == Wrap(if s == 0 then uq else 0 - uq)
  {
    ConditionalNegates(uq, s);
    NegativeMod(uq);
  }

  lemma {:induction false} NegativeMod(x: u64)
    ensures (0 - x) % B64 == (B64 - x) % B64 && x % B64 == x
  {
  }

  /** Signed remainder, `__moddi3`. */
  method ModDI3(a: s64, b: s64) returns (r: s64)
    requires b != 0
    ensures r == TruncRem(a, b)
  {
    var sb, sa := SignWord(b), SignWord(a);
    Magnitude(a); Magnitude(b);
    var ub, ua := Conditional(ToUnsigned(b), sb), Conditional(ToUnsigned(a), sa);
    var uq, rem := UDivModDI4(ua, ub);
    DivModUnique(ua, ub, uq, rem);
    SignedRemainder(a, rem);
    r := ToSigned(Conditional(rem, sa));
  }

  lemma {:induction false} SignedRemainder(a: s64, rem: u64)
    requires rem < B63
    ensures ToSigned(Conditional(rem, SignWord(a))) == if a < 0 then -(rem as int) else rem
  {
    ConditionalNegates(rem, SignWord(a));
  }

  /** The quotient is exact except for the one pair whose quotient does not fit. */
  lemma {:induction false} QuotientFits(a: s64, b: s64)
    requires b != 0
    ensures Wrap(TruncDiv(a, b)) == TruncDiv(a, b) <==> !(a == -0x8000_0000_0000_0000 && b == -1)
  {
    MagnitudeFits(Abs(a), Abs(b));
    WrapFits(TruncDiv(a, b));
  }

  lemma {:induction false} MagnitudeFits(x: nat, d: nat)
    requires d > 0 && x <= B63
    ensures d >= 2 ==> x / d < B63
    ensures d == 1 ==> x / d == x
    ensures x / d <= B63
  {
    if d >= 2 {
      MulMonotone(2, d, x / d);
      EuclideanSum(x, d);
    }
  }

  lemma {:induction false} WrapFits(t: int)
    requires -B63 <= t <= B63
    ensures Wrap(t) == t <==> t != B63
  {
  }

  /** Signed division with remainder, `__divmoddi4`; the products wrap around. */
  method DivModDI4(a: s64, b: s64) returns (d: s64, rem: s64)
    requires b != 0
    ensures d == Wrap(TruncDiv(a, b)) && rem == TruncRem(a, b)
  {
    d := DivDI3(a, b);
    RemainderFromQuotient(a, b, d);
    rem := Wrap(a - Wrap(d * b));
  }

  lemma {:induction false} RemainderFromQuotient(a: s64, b: s64, d: s64)
    requires b != 0 && d == Wrap(TruncDiv(a, b))
    ensures Wrap(a - Wrap(d * b)) == TruncRem(a, b)
  {
    TruncDivRem(a, b);
    QuotientFits(a, b);
    if a == -0x8000_0000_0000_0000 && b == -1 {
      assert Abs(a) / 1 == Abs(a) && Abs(a) % 1 == 0;
    } else {
      RemainderWraps(a, b, d, TruncRem(a, b));
    }
  }

  lemma {:induction false} RemainderWraps(a: s64, b: s64, d: s64, r: int)
    requires a == d * b + r && Abs(r) < Abs(b)
    ensures Wrap(a - Wrap(d * b)) == r
  {
    var p := d * b;
    WrapTwice(a, p);
    assert a - p == r;
    WrapFits(r);
  }

  lemma {:induction false} WrapTwice(a: s64, p: int)
    ensures Wrap(a - Wrap(p)) == Wrap(a - p)
  {
    var k := p / B64 + (if p % B64 < B63 then 0 else 1);
    assert p - Wrap(p) == k * B64;
    ModShift(a - p, k);
  }

  lemma {:induction false} ModShift(x: int, k: int)
    ensures (x + k * B64) % B64 == x % B64
  {
    var q := x / B64;
    assert x + k * B64 == (q + k) * B64 + x % B64;
    ModUnique(x + k * B64, q + k, x % B64);
  }

  lemma {:induction false} ModUnique(x: int, q: int, r: int)
    requires x == q * B64 + r && 0 <= r < B64
    ensures x % B64 == r
  {
  }
}
