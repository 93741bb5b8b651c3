/**
 Numbers as 32-bit vectors: the C operators that the rounds use on numbers are Dafny's own
 wrapping addition, exclusive or and rotation of the vectors.  Each operator has a name of its
 own here so that proofs about whole words need not look at their bits.
 */
module ChaChaWords {
  import opened Primitives
  import opened Words
  import opened ChaChaSpec

  // ----- building a word digit by digit -----

  function Twice(u: bv32, b: bool): bv32 {
    if b then (u << 1) + 1 else u << 1
  }

  function Inc(u: bv32): bv32 {
    u + 1
  }

  function Sum(u: bv32, v: bv32): bv32 {
    u + v
  }

  function Both(u: bv32, v: bv32): bv32 {
    u ^ v
  }

  /** The last 32 binary digits of a number. */
  function Word(n: nat): bv32 {
    if n == 0 then 0 else Twice(Word(n / 2), n % 2 == 1)
  }

  lemma HalfOf(n: nat) returns (h: nat, b: bool)
    ensures n == 2 * h + Digit(b)
  {
    h, b := n / 2, n % 2 == 1;
  }

  lemma WordStep(n: nat, h: nat, b: bool)
    requires n == 2 * h + Digit(b)
    ensures Word(n) == Twice(Word(h), b)
  {
    assert n / 2 == h;
    assert Twice(0, false) == 0;
  }

  // ----- addition -----

  lemma IncDigits(u: bv32)
    ensures Inc(Twice(u, false)) == Twice(u, true)
    ensures Inc(Twice(u, true)) == Twice(Inc(u), false)
  {
    IncEven(u);
    IncOdd(u);
  }

  lemma IncEven(u: bv32)
    ensures Inc(Twice(u, false)) == Twice(u, true)
  {
  }

  lemma AddTwo(u: bv32)
    ensures ((u << 1) + 1) + 1 == (u + 1) << 1
  {
  }

  lemma IncOdd(u: bv32)
    ensures Inc(Twice(u, true)) == Twice(Inc(u), false)
  {
    AddTwo(u);
    assert Inc((u << 1) + 1) == ((u << 1) + 1) + 1;
    assert Twice(u + 1, false) == (u + 1) << 1;
  }

  lemma {:induction false} WordInc(n: nat)
    ensures Word(n + 1) == Inc(Word(n))
  {
    if n == 0 {
      WordStep(1, 0, true);
    } else {
      var h, b := HalfOf(n);
      WordStep(n, h, b);
      WordInc(h);
      IncDigits(Word(h));
      WordStep(n + 1, if b then h + 1 else h, !b);
    }
  }

  lemma AddEven(u: bv32, v: bv32)
    ensures (u << 1) + (v << 1) == (u + v) << 1
  {
  }

  lemma AddMixed(u: bv32, v: bv32)
    ensures ((u << 1) + 1) + (v << 1) == ((u + v) << 1) + 1
    ensures (u << 1) + ((v << 1) + 1) == ((u + v) << 1) + 1
  {
    calc {
      ((u << 1) + 1) + (v << 1);
      ((u << 1) + (v << 1)) + 1;
      { AddEven(u, v); }
      ((u + v) << 1) + 1;
    }
  }

  lemma AddOdd(u: bv32, v: bv32)
    ensures ((u << 1) + 1) + ((v << 1) + 1) == (u + v + 1) << 1
  {
    calc {
      ((u << 1) + 1) + ((v << 1) + 1);
      (u << 1) + (v << 1) + 2;
      { AddEven(u, v); }
      ((u + v) << 1) + 2;
      (u + v + 1) << 1;
    }
  }

  lemma SumEven(u: bv32, v: bv32)
    ensures Sum(Twice(u, false), Twice(v, false)) == Twice(Sum(u, v), false)
  {
    AddEven(u, v);
    assert Sum(u << 1, v << 1) == (u << 1) + (v << 1);
    assert Twice(u + v, false) == (u + v) << 1;
  }

  lemma SumMixed(u: bv32, v: bv32)
    ensures Sum(Twice(u, true), Twice(v, false)) == Twice(Sum(u, v), true)
  {
    AddMixed(u, v);
    assert Sum((u << 1) + 1, v << 1) == ((u << 1) + 1) + (v << 1);
    assert Twice(u + v, true) == ((u + v) << 1) + 1;
  }

  lemma SumOdd(u: bv32, v: bv32)
    ensures Sum(Twice(u, true), Twice(v, true)) == Twice(Inc(Sum(u, v)), false)
  {
    AddOdd(u, v);
    assert Sum((u << 1) + 1, (v << 1) + 1) == ((u << 1) + 1) + ((v << 1) + 1);
    assert Twice(u + v + 1, false) == (u + v + 1) << 1;
    assert Inc(u + v) == u + v + 1;
  }

  lemma SumSwaps(u: bv32, v: bv32)
    ensures Sum(u, v) == Sum(v, u)
  {
  }

  /** The word of a sum is the wrapping sum of the words. */
  lemma {:induction false} WordAdds(a: nat, b: nat)
    ensures Word(a + b) == Sum(Word(a), Word(b))
    decreases a + b
  {
    if a + b > 0 {
      var h, p := HalfOf(a);
      var k, q := HalfOf(b);
      WordStep(a, h, p);
      WordStep(b, k, q);
      WordAdds(h, k);
      SumStep(Word(h), Word(k), p, q);
      WordSum(h, p, k, q, a + b);
    }
  }

  /** The sum of two words whose lowest digits are `p` and `q`. */
  function Carried(s: bv32, p: bool, q: bool): bv32 {
    Twice(if p && q then Inc(s) else s, p != q)
  }

  lemma SumStep(u: bv32, v: bv32, p: bool, q: bool)
    ensures Sum(Twice(u, p), Twice(v, q)) == Carried(Sum(u, v), p, q)
  {
    if p && q {
      SumOdd(u, v);
    } else if p {
      SumMixed(u, v);
    } else if q {
      SumMixed(v, u);
      SumSwaps(u, v);
      SumSwaps(Twice(u, p), Twice(v, q));
    } else {
      SumEven(u, v);
    }
  }

  lemma WordSum(h: nat, p: bool, k: nat, q: bool, n: nat)
    requires n == 2 * h + Digit(p) + 2 * k + Digit(q)
    ensures Word(n) == Carried(Word(h + k), p, q)
  {
    if p && q {
      WordStep(n, h + k + 1, false);
      WordInc(h + k);
    } else {
      WordStep(n, h + k, p != q);
    }
  }

  // ----- exclusive or -----

  lemma XorRaw(u: bv32, v: bv32)
    ensures (u << 1) ^ (v << 1) == (u ^ v) << 1
    ensures ((u << 1) + 1) ^ (v << 1) == ((u ^ v) << 1) + 1
    ensures ((u << 1) + 1) ^ ((v << 1) + 1) == (u ^ v) << 1
  {
  }

  lemma BothEven(u: bv32, v: bv32)
    ensures Both(Twice(u, false), Twice(v, false)) == Twice(Both(u, v), false)
  {
    XorRaw(u, v);
    assert Both(u << 1, v << 1) == (u << 1) ^ (v << 1);
    assert Twice(u ^ v, false) == (u ^ v) << 1;
  }

  lemma BothMixed(u: bv32, v: bv32)
    ensures Both(Twice(u, true), Twice(v, false)) == Twice(Both(u, v), true)
  {
    XorRaw(u, v);
    assert Both((u << 1) + 1, v << 1) == ((u << 1) + 1) ^ (v << 1);
    assert Twice(u ^ v, true) == ((u ^ v) << 1) + 1;
  }

  lemma BothOdd(u: bv32, v: bv32)
    ensures Both(Twice(u, true), Twice(v, true)) == Twice(Both(u, v), false)
  {
    XorRaw(u, v);
    assert Both((u << 1) + 1, (v << 1) + 1) == ((u << 1) + 1) ^ ((v << 1) + 1);
    assert Twice(u ^ v, false) == (u ^ v) << 1;
  }

  lemma BothSwaps(u: bv32, v: bv32)
    ensures Both(u, v) == Both(v, u)
  {
  }

  lemma BothStep(u: bv32, v: bv32, p: bool, q: bool)
    ensures Both(Twice(u, p), Twice(v, q)) == Twice(Both(u, v), p != q)
  {
    if p && q {
      BothOdd(u, v);
    } else if p {
      BothMixed(u, v);
    } else if q {
      BothMixed(v, u);
      BothSwaps(u, v);
      BothSwaps(Twice(u, p), Twice(v, q));
    } else {
      BothEven(u, v);
    }
  }

  lemma {:induction false} WordXors(a: nat, b: nat)
    ensures Word(Xor(a, b)) == Both(Word(a), Word(b))
  {
    if a + b > 0 {
      var h, p := HalfOf(a);
      var k, q := HalfOf(b);
      WordStep(a, h, p);
      WordStep(b, k, q);
      WordXors(h, k);
      BothStep(Word(h), Word(k), p, q);
      WordStep(Xor(a, b), Xor(h, k), p != q);
    }
  }

  // ----- the number a word denotes -----

  function Num(x: bv32): u32 {
    x as int
  }

  function Kept(u: bv32): bv32 {
    u & 0x7fff_ffff
  }

  lemma NumEven(u: bv32)
    ensures Num(u << 1) == 2 * Num(Kept(u))
  {
  }

  lemma NumOdd(u: bv32)
    ensures Num((u << 1) + 1) == 2 * Num(Kept(u)) + 1
  {
  }

  lemma TopDigit(u: bv32) returns (top: bool)
    ensures Num(Kept(u)) == Num(u) - (if top then 0x8000_0000 else 0)
  {
    top := u & 0x8000_0000 != 0;
  }

  lemma LowHalf(k: nat, n: u32, top: bool)
    requires k == n - (if top then 0x8000_0000 else 0)
    requires 2 * k < WORD_SIZE
    ensures k == n % 0x8000_0000
  {
  }

  lemma NumTwice(u: bv32, b: bool) returns (n: u32, a: u32)
    ensures n == Num(u) && a == Num(Twice(u, b))
    ensures a == 2 * (n % 0x8000_0000) + Digit(b)
  {
    var k, top, even, odd;
    n, k, top := DropTop(u);
    LowHalf(k, n, top);
    even, odd := NumBoth(u, k);
    a := if b then odd else even;
  }

  lemma DropTop(u: bv32) returns (n: u32, k: nat, top: bool)
    ensures n == Num(u) && k == Num(Kept(u))
    ensures k == n - (if top then 0x8000_0000 else 0)
    ensures 2 * k < WORD_SIZE
  {
    n, k := Num(u), Num(Kept(u));
    top := TopDigit(u);
    NumEven(u);
  }

  lemma NumBoth(u: bv32, k: nat) returns (even: nat, odd: nat)
    requires k == Num(Kept(u))
    ensures even == Num(Twice(u, false)) && odd == Num(Twice(u, true))
    ensures even == 2 * k && odd == 2 * k + 1
  {
    even, odd := Num(u << 1), Num((u << 1) + 1);
    NumEven(u);
    NumOdd(u);
  }

  predicate Odd(x: bv32) {
    x & 1 != 0
  }

  function Upper(x: bv32): bv32 {
    x >> 1
  }

  lemma Rebuilt(x: bv32)
    ensures x == Twice(Upper(x), Odd(x))
  {
  }

  lemma UpperKept(x: bv32)
    ensures Kept(Upper(x)) == Upper(x)
  {
  }

  function Even(u: bv32): bv32 {
    u << 1
  }

  function OneMore(u: bv32): bv32 {
    (u << 1) + 1
  }

  lemma EvenNum(u: bv32)
    ensures Num(Even(u)) == 2 * Num(Kept(u))
  {
  }

  lemma OneMoreNum(u: bv32)
    ensures Num(OneMore(u)) == 2 * Num(Kept(u)) + 1
  {
  }

  lemma Apart(x: bv32)
    ensures x == if Odd(x) then OneMore(Upper(x)) else Even(Upper(x))
  {
  }

  lemma Halve(x: bv32)
    ensures Num(x) == 2 * Num(Upper(x)) + Digit(Odd(x))
  {
    Apart(x);
    UpperKept(x);
    EvenNum(Upper(x));
    OneMoreNum(Upper(x));
  }

  lemma NoBits(x: bv32)
    requires Num(x) == 0
    ensures x == 0
  {
  }

  /** Every word is the word of the number it denotes. */
  lemma {:induction false} WordNum(x: bv32)
    ensures Word(Num(x)) == x
    decreases Num(x)
  {
    if Num(x) == 0 {
      NoBits(x);
    } else {
      Halve(x);
      WordNum(Upper(x));
      WordStep(Num(x), Num(Upper(x)), Odd(x));
      Rebuilt(x);
    }
  }

  lemma ModMod(h: nat)
    ensures h % WORD_SIZE % 0x8000_0000 == h % 0x8000_0000
  {
  }

  lemma TwiceMod(n: nat, h: nat, b: bool)
    requires n == 2 * h + Digit(b)
    ensures 2 * (h % WORD_SIZE % 0x8000_0000) + Digit(b) == n % WORD_SIZE
  {
    ModMod(h);
    var q, r := h / 0x8000_0000, h % 0x8000_0000;
    ModOf(n, WORD_SIZE, q, 2 * r + Digit(b));
  }

  /** Reading a number's word back wraps the number. */
  lemma {:induction false} NumWord(n: nat)
    ensures Num(Word(n)) == n % WORD_SIZE
  {
    if n > 0 {
      var h, b := HalfOf(n);
      NumWord(h);
      WordStep(n, h, b);
      var k, a := NumTwice(Word(h), b);
      TwiceMod(n, h, b);
    }
  }

  /** A number and the number its word denotes have the same word. */
  lemma WordWraps(n: nat)
    ensures Word(n % WORD_SIZE) == Word(n)
  {
    WordNum(Word(n));
    NumWord(n);
  }

  // ----- rotation -----

  function Turn4(x: bv32): bv32 {
    x.RotateLeft(4)
  }

  function Turn7(x: bv32): bv32 {
    x.RotateLeft(7)
  }

  function Turn8(x: bv32): bv32 {
    x.RotateLeft(8)
  }

  function Turn12(x: bv32): bv32 {
    x.RotateLeft(12)
  }

  function Turn16(x: bv32): bv32 {
    x.RotateLeft(16)
  }

  lemma RotlIs(v: u32, n: nat, high: u32, low: u32)
    requires n < 32 && high == v * Pow2(n) % WORD_SIZE && low == v / Pow2(32 - n)
    ensures Rotl(v, n) == Or(high, low)
  {
  }

  /** Rotating exchanges the upper `n` digits and the others. */
  lemma RotlOf(v: u32, n: nat, p: nat, q: nat, h: nat, l: nat)
    requires n < 32 && p == Pow2(n) && q == Pow2(32 - n) && p * q == WORD_SIZE
    requires v == q * h + l && l < q && h < p
    ensures Rotl(v, n) == p * l + h
  {
    RotlParts(v, p, q, h, l);
    RotlIs(v, n, p * l, h);
    OrDisjoint(l, h, n);
  }

  lemma RotlParts(v: u32, p: nat, q: nat, h: nat, l: nat)
    requires p * q == WORD_SIZE && v == q * h + l && l < q
    ensures p * l < WORD_SIZE && v * p % WORD_SIZE == p * l && v / q == h
  {
    Distribute(p, q, h, l);
    ModOf(v * p, WORD_SIZE, h, p * l);
    DivOf(v, q, h, l);
  }

  lemma Distribute(p: nat, q: nat, h: nat, l: nat)
    requires p * q == WORD_SIZE && l < q
    ensures (q * h + l) * p == WORD_SIZE * h + p * l
    ensures p * l < WORD_SIZE
  {
    assert (q * h + l) * p == (p * q) * h + p * l;
    MulSign(p, q - l);
    assert p * l == p * q - p * (q - l);
  }

  lemma DivOf(v: nat, q: nat, h: nat, l: nat)
    requires v == q * h + l && l < q
    ensures v / q == h
  {
    ModOf(v, q, h, l);
    assert q * (v / q - h) == 0;
  }

  lemma Parts8(x: bv32)
    ensures Num(x) == 0x100_0000 * Num(x >> 24) + Num(x & 0xff_ffff)
  {
  }

  lemma Turned8Parts(x: bv32)
    ensures Num(x.RotateLeft(8)) == 0x100 * Num(x & 0xff_ffff) + Num(x >> 24)
  {
  }

  lemma NumTurn8(x: bv32)
    ensures Num(Turn8(x)) == Num(x.RotateLeft(8))
  {
  }

  lemma Low8(x: bv32) returns (v: u32, h: u32, l: u32)
    ensures v == Num(x) && h == Num(x >> 24) && l == Num(x & 0xff_ffff) && v == 0x100_0000 * h + l
  {
    v, h, l := Num(x), Num(x >> 24), Num(x & 0xff_ffff);
    Parts8(x);
  }

  lemma High8(x: bv32, h: u32, l: u32) returns (w: u32)
    requires h == Num(x >> 24) && l == Num(x & 0xff_ffff)
    ensures w == Num(Turn8(x)) && w == 0x100 * l + h
  {
    w := Num(x.RotateLeft(8));
    Turned8Parts(x);
    NumTurn8(x);
  }

  lemma Split8(x: bv32) returns (h: nat, l: nat)
    ensures Num(x) == 0x100_0000 * h + l && Num(Turn8(x)) == 0x100 * l + h && h < 0x100 && l < 0x100_0000
  {
    var v, w;
    v, h, l := Low8(x);
    w := High8(x, h, l);
  }

  lemma Parts7(x: bv32)
    ensures Num(x) == 0x200_0000 * Num(x >> 25) + Num(x & 0x1ff_ffff)
  {
  }

  lemma Turned7Parts(x: bv32)
    ensures Num(x.RotateLeft(7)) == 0x80 * Num(x & 0x1ff_ffff) + Num(x >> 25)
  {
  }

  lemma NumTurn7(x: bv32)
    ensures Num(Turn7(x)) == Num(x.RotateLeft(7))
  {
  }

  lemma Low7(x: bv32) returns (v: u32, h: u32, l: u32)
    ensures v == Num(x) && h == Num(x >> 25) && l == Num(x & 0x1ff_ffff) && v == 0x200_0000 * h + l
  {
    v, h, l := Num(x), Num(x >> 25), Num(x & 0x1ff_ffff);
    Parts7(x);
  }

  lemma High7(x: bv32, h: u32, l: u32) returns (w: u32)
    requires h == Num(x >> 25) && l == Num(x & 0x1ff_ffff)
    ensures w == Num(Turn7(x)) && w == 0x80 * l + h
  {
    w := Num(x.RotateLeft(7));
    Turned7Parts(x);
    NumTurn7(x);
  }

  lemma Split7(x: bv32) returns (h: nat, l: nat)
    ensures Num(x) == 0x200_0000 * h + l && Num(Turn7(x)) == 0x80 * l + h && h < 0x80 && l < 0x200_0000
  {
    var v, w;
    v, h, l := Low7(x);
    w := High7(x, h, l);
  }

  lemma Parts4(x: bv32)
    ensures Num(x) == 0x1000_0000 * Num(x >> 28) + Num(x & 0xfff_ffff)
  {
  }

  lemma Turned4Parts(x: bv32)
    ensures Num(x.RotateLeft(4)) == 0x10 * Num(x & 0xfff_ffff) + Num(x >> 28)
  {
  }

  lemma NumTurn4(x: bv32)
    ensures Num(Turn4(x)) == Num(x.RotateLeft(4))
  {
  }

  lemma Low4(x: bv32) returns (v: u32, h: u32, l: u32)
    ensures v == Num(x) && h == Num(x >> 28) && l == Num(x & 0xfff_ffff) && v == 0x1000_0000 * h + l
  {
    v, h, l := Num(x), Num(x >> 28), Num(x & 0xfff_ffff);
    Parts4(x);
  }

  lemma High4(x: bv32, h: u32, l: u32) returns (w: u32)
    requires h == Num(x >> 28) && l == Num(x & 0xfff_ffff)
    ensures w == Num(Turn4(x)) && w == 0x10 * l + h
  {
    w := Num(x.RotateLeft(4));
    Turned4Parts(x);
    NumTurn4(x);
  }

  lemma Split4(x: bv32) returns (h: nat, l: nat)
    ensures Num(x) == 0x1000_0000 * h + l && Num(Turn4(x)) == 0x10 * l + h && h < 0x10 && l < 0x1000_0000
  {
    var v, w;
    v, h, l := Low4(x);
    w := High4(x, h, l);
  }

  lemma Powers()
    ensures Pow2(7) == 0x80 && Pow2(8) == 0x100 && Pow2(12) == 0x1000 && Pow2(16) == 0x1_0000
    ensures Pow2(20) == 0x10_0000 && Pow2(24) == 0x100_0000 && Pow2(25) == 0x200_0000
  {
    WordIsPow2();
    assert Pow2(12) == 16 * Pow2(8);
    assert Pow2(20) == 16 * Pow2(16);
  }

  lemma Turned7(x: bv32)
    ensures Rotl(Num(x), 7) == Num(Turn7(x))
  {
    var h, l := Split7(x);
    Powers();
    RotlOf(Num(x), 7, 0x80, 0x200_0000, h, l);
  }

  lemma Turned8(x: bv32)
    ensures Rotl(Num(x), 8) == Num(Turn8(x))
  {
    var h, l := Split8(x);
    Powers();
    RotlOf(Num(x), 8, 0x100, 0x100_0000, h, l);
  }

  lemma Twelve(v: u32, z: nat, h: nat, l: nat, k: nat, m: nat)
    requires v == 0x100_0000 * h + l && h < 0x100 && l < 0x100_0000
    requires 0x100 * l + h == 0x1000_0000 * k + m && k < 0x10 && m < 0x1000_0000
    requires z == 0x10 * m + k
    ensures Rotl(v, 12) == z
  {
    Powers();
    RotlOf(v, 12, 0x1000, 0x10_0000, 0x10 * h + k, l - 0x10_0000 * k);
  }

  lemma TurnAgain(x: bv32)
    ensures Turn4(Turn8(x)) == Turn12(x)
    ensures Turn8(Turn8(x)) == Turn16(x)
  {
  }

  lemma Sixteen(v: u32, z: nat, h: nat, l: nat, k: nat, m: nat)
    requires v == 0x100_0000 * h + l && h < 0x100 && l < 0x100_0000
    requires 0x100 * l + h == 0x100_0000 * k + m && k < 0x100 && m < 0x100_0000
    requires z == 0x100 * m + k
    ensures Rotl(v, 16) == z
  {
    Powers();
    RotlOf(v, 16, 0x1_0000, 0x1_0000, 0x100 * h + k, l - 0x1_0000 * k);
  }

  lemma Turned12(x: bv32)
    ensures Rotl(Num(x), 12) == Num(Turn12(x))
  {
    var h, l := Split8(x);
    var k, m, z := SplitAgain4(x);
    Twelve(Num(x), z, h, l, k, m);
  }

  lemma Turned16(x: bv32)
    ensures Rotl(Num(x), 16) == Num(Turn16(x))
  {
    var h, l := Split8(x);
    var k, m, z := SplitAgain8(x);
    Sixteen(Num(x), z, h, l, k, m);
  }

  lemma SplitAgain4(x: bv32) returns (k: nat, m: nat, z: nat)
    ensures z == Num(Turn12(x)) && z == 0x10 * m + k && k < 0x10 && m < 0x1000_0000
    ensures Num(Turn8(x)) == 0x1000_0000 * k + m
  {
    TurnAgain(x);
    k, m := Split4(Turn8(x));
    z := Num(Turn12(x));
  }

  lemma SplitAgain8(x: bv32) returns (k: nat, m: nat, z: nat)
    ensures z == Num(Turn16(x)) && z == 0x100 * m + k && k < 0x100 && m < 0x100_0000
    ensures Num(Turn8(x)) == 0x100_0000 * k + m
  {
    TurnAgain(x);
    k, m := Split8(Turn8(x));
    z := Num(Turn16(x));
  }

  // ----- the operators on words -----

  lemma AddWord(a: u32, b: u32)
    ensures Word(Add32(a, b)) == Sum(Word(a), Word(b))
  {
    WordAdds(a, b);
    WordWraps(a + b);
  }

  lemma XorWord(a: u32, b: u32)
    ensures Word(Xor32(a, b)) == Both(Word(a), Word(b))
  {
    WordXors(a, b);
  }

  lemma SmallMod(a: u32)
    ensures a as nat % WORD_SIZE == a
  {
  }

  lemma WordOf(a: u32) returns (x: bv32)
    ensures x == Word(a) && Num(x) == a
  {
    SmallMod(a);
    NumWord(a);
    x := Word(a);
  }

  lemma Word16(a: u32)
    ensures Word(Rotl(a, 16)) == Turn16(Word(a))
  {
    var x := WordOf(a);
    Turned16(x);
    WordNum(Turn16(x));
  }

  lemma Word12(a: u32)
    ensures Word(Rotl(a, 12)) == Turn12(Word(a))
  {
    var x := WordOf(a);
    Turned12(x);
    WordNum(Turn12(x));
  }

  lemma Word8(a: u32)
    ensures Word(Rotl(a, 8)) == Turn8(Word(a))
  {
    var x := WordOf(a);
    Turned8(x);
    WordNum(Turn8(x));
  }

  lemma Word7(a: u32)
    ensures Word(Rotl(a, 7)) == Turn7(Word(a))
  {
    var x := WordOf(a);
    Turned7(x);
    WordNum(Turn7(x));
  }
}
