/**
 Unsigned machine words as naturals, with the C operators defined on their binary digits,
 and big-endian byte strings as the numbers they denote.
 */
module Words {
  import opened Primitives

  function Pow2(k: nat): (r: nat)
    ensures r >= 1
  {
    if k == 0 then 1 else 2 * Pow2(k - 1)
  }

  function Pow256(k: nat): (r: nat)
    ensures r >= 1
  {
    if k == 0 then 1 else 256 * Pow256(k - 1)
  }

  /** Binary digit `k`: the C expression `(w >> k) & 1`. */
  predicate Bit(w: nat, k: nat) {
    if k == 0 then w % 2 == 1 else Bit(w / 2, k - 1)
  }

  function Digit(b: bool): nat {
    if b then 1 else 0
  }

  /** The C operator `|`. */
  function Or(a: nat, b: nat): nat {
    if a == 0 && b == 0 then 0 else 2 * Or(a / 2, b / 2) + Digit(a % 2 == 1 || b % 2 == 1)
  }

  /** The C operator `&`. */
  function And(a: nat, b: nat): nat {
    if a == 0 || b == 0 then 0 else 2 * And(a / 2, b / 2) + Digit(a % 2 == 1 && b % 2 == 1)
  }

  /** The C operator `~` on a word of `width` bits. */
  function Not(a: nat, width: nat): nat {
    if width == 0 then 0 else 2 * Not(a / 2, width - 1) + Digit(a % 2 == 0)
  }

  lemma {:induction false} BitZero(k: nat)
    ensures !Bit(0, k)
  {
    if k > 0 {
      BitZero(k - 1);
    }
  }

  lemma {:induction false} BitOr(a: nat, b: nat, k: nat)
    ensures Bit(Or(a, b), k) <==> Bit(a, k) || Bit(b, k)
    decreases k
  {
    if a == 0 && b == 0 {
      BitZero(k);
    } else {
      if k > 0 {
        BitOr(a / 2, b / 2, k - 1);
      }
    }
  }

  lemma {:induction false} BitAnd(a: nat, b: nat, k: nat)
    ensures Bit(And(a, b), k) <==> Bit(a, k) && Bit(b, k)
    decreases k
  {
    if a == 0 || b == 0 {
      BitZero(k);
    } else {
      if k > 0 {
        BitAnd(a / 2, b / 2, k - 1);
      }
    }
  }

  lemma {:induction false} BitNot(a: nat, width: nat, k: nat)
    ensures Bit(Not(a, width), k) <==> k < width && !Bit(a, k)
    decreases width
  {
    if width == 0 {
      BitZero(k);
    } else {
      if k > 0 {
        BitNot(a / 2, width - 1, k - 1);
      }
    }
  }

  lemma {:induction false} BitPow2(k: nat, j: nat)
    ensures Bit(Pow2(k), j) <==> j == k
    decreases k
  {
    if k == 0 {
      if j > 0 {
        BitZero(j - 1);
      }
    } else if j > 0 {
      BitPow2(k - 1, j - 1);
    }
  }

  /** A number below 2^m has no digit from m on. */
  lemma {:induction false} BitAbove(w: nat, m: nat, k: nat)
    requires w < Pow2(m) && m <= k
    ensures !Bit(w, k)
    decreases m
  {
    if m == 0 {
      BitZero(k);
    } else {
      BitAbove(w / 2, m - 1, k - 1);
    }
  }

  lemma {:induction false} BitsBelow(w: nat, m: nat)
    requires forall k :: m <= k ==> !Bit(w, k)
    ensures w < Pow2(m)
    decreases m, w
  {
    if w == 0 {
    } else if m == 0 {
      assert !Bit(w, 0);
      forall k: nat | 0 <= k
        ensures !Bit(w / 2, k)
      {
        assert !Bit(w, k + 1);
      }
      BitsBelow(w / 2, 0);
    } else {
      forall k | m - 1 <= k
        ensures !Bit(w / 2, k)
      {
        assert !Bit(w, k + 1);
      }
      BitsBelow(w / 2, m - 1);
    }
  }

  /** Numbers with the same binary digits are equal. */
  lemma {:induction false} BitsDetermine(a: nat, b: nat)
    requires forall k: nat :: Bit(a, k) == Bit(b, k)
    ensures a == b
    decreases a + b
  {
    if a + b > 0 {
      assert Bit(a, 0) == Bit(b, 0);
      forall k: nat
        ensures Bit(a / 2, k) == Bit(b / 2, k)
      {
        assert Bit(a, k + 1) == Bit(b, k + 1);
      }
      BitsDetermine(a / 2, b / 2);
    }
  }

  lemma {:induction false} TopBit(w: nat, k: nat)
    requires Pow2(k) <= w < Pow2(k + 1)
    ensures Bit(w, k)
  {
    if k > 0 {
      TopBit(w / 2, k - 1);
    }
  }

  /** Below the split the low part decides, above it the high part. */
  lemma {:induction false} BitSplit(low: nat, high: nat, m: nat, k: nat)
    requires low < Pow2(m)
    ensures Bit(low + Pow2(m) * high, k) <==> if k < m then Bit(low, k) else Bit(high, k - m)
    decreases m
  {
    if m > 0 {
      var h := Pow2(m - 1) * high;
      assert Pow2(m) * high == 2 * h;
      assert (low + 2 * h) / 2 == low / 2 + h && (low + 2 * h) % 2 == low % 2;
      if k > 0 {
        BitSplit(low / 2, high, m - 1, k - 1);
      }
    }
  }

  lemma {:induction false} OrZero(a: nat)
    ensures Or(a, 0) == a
  {
    if a > 0 {
      OrZero(a / 2);
    }
  }

  /** Where no digit overlaps, `|` is addition. */
  lemma {:induction false} OrDisjoint(high: nat, b: nat, m: nat)
    requires b < Pow2(m)
    ensures Or(Pow2(m) * high, b) == Pow2(m) * high + b
    decreases m
  {
    if m == 0 {
      OrZero(high);
    } else {
      var h := Pow2(m - 1) * high;
      assert Pow2(m) * high == 2 * h;
      OrDisjoint(high, b / 2, m - 1);
    }
  }

  lemma WordIsPow2()
    ensures Pow2(32) == WORD_SIZE && Pow2(31) == WORD_SIZE / 2
    ensures Pow2(24) == 0x100_0000 && Pow2(16) == 0x1_0000 && Pow2(8) == 0x100 && Pow2(0) == 1
  {
    assert Pow2(8) == 0x100;
    assert Pow2(16) == 0x1_0000;
    assert Pow2(24) == 0x100_0000;
    assert Pow2(31) == 0x8000_0000;
  }

  lemma OrFits(a: u32, b: u32)
    ensures Or(a, b) < WORD_SIZE
  {
    WordIsPow2();
    forall k | 32 <= k
      ensures !Bit(Or(a, b), k)
    {
      BitOr(a, b, k);
      BitAbove(a, 32, k);
      BitAbove(b, 32, k);
    }
    BitsBelow(Or(a, b), 32);
  }

  lemma AndFits(a: u32, b: nat)
    ensures And(a, b) < WORD_SIZE
  {
    WordIsPow2();
    forall k | 32 <= k
      ensures !Bit(And(a, b), k)
    {
      BitAnd(a, b, k);
      BitAbove(a, 32, k);
    }
    BitsBelow(And(a, b), 32);
  }

  lemma {:induction false} Pow2Fits(k: nat)
    requires k < 32
    ensures Pow2(k) < WORD_SIZE
  {
    WordIsPow2();
    Pow2Monotone(k, 31);
  }

  lemma {:induction false} Pow2Monotone(a: nat, b: nat)
    requires a <= b
    ensures Pow2(a) <= Pow2(b)
  {
    if a < b {
      Pow2Monotone(a, b - 1);
    }
  }

  // ----- remainders -----

  lemma ModOf(a: nat, m: nat, q: nat, r: nat)
    requires a == m * q + r && r < m
    ensures a % m == r
  {
    var d := q - a / m;
    assert m * d == a % m - r;
    MulSign(m, d);
  }

  lemma MulSign(m: nat, d: int)
    ensures d >= 1 ==> m * d >= m
    ensures d <= -1 ==> m * d + m <= 0
  {
  }

  // ----- exclusive or -----

  /** The C operator `^`. */
  function Xor(a: nat, b: nat): nat {
    if a == 0 && b == 0 then 0 else 2 * Xor(a / 2, b / 2) + Digit(a % 2 != b % 2)
  }

  lemma {:induction false} XorSelf(a: nat, b: nat)
    ensures Xor(Xor(a, b), b) == a
  {
    if a + b > 0 {
      XorSelf(a / 2, b / 2);
    }
  }

  lemma {:induction false} XorFits(a: nat, b: nat, m: nat)
    requires a < Pow2(m) && b < Pow2(m)
    ensures Xor(a, b) < Pow2(m)
    decreases m
  {
    if a + b > 0 {
      XorFits(a / 2, b / 2, m - 1);
    }
  }

  /** Exclusive or works on the parts of split words separately. */
  lemma {:induction false} XorSplit(a: nat, b: nat, c: nat, d: nat, m: nat)
    requires a < Pow2(m) && c < Pow2(m)
    ensures Xor(a + Pow2(m) * b, c + Pow2(m) * d) == Xor(a, c) + Pow2(m) * Xor(b, d)
    decreases m
  {
    if m > 0 {
      var u, v := a + Pow2(m) * b, c + Pow2(m) * d;
      Halve(a, b, m);
      Halve(c, d, m);
      Halve(Xor(a, c), Xor(b, d), m);
      XorSplit(a / 2, b, c / 2, d, m - 1);
      XorStep(u, v);
      XorStep(a, c);
    }
  }

  lemma Halve(a: nat, b: nat, m: nat)
    requires m > 0
    ensures a + Pow2(m) * b >= 0
    ensures (a + Pow2(m) * b) / 2 == a / 2 + Pow2(m - 1) * b
    ensures (a + Pow2(m) * b) % 2 == a % 2
  {
    var h := Pow2(m - 1) * b;
    assert Pow2(m) * b == 2 * h;
  }

  lemma XorStep(u: nat, v: nat)
    ensures Xor(u, v) == 2 * Xor(u / 2, v / 2) + Digit(u % 2 != v % 2)
  {
  }

  // ----- big-endian byte strings -----

  type octet = x: int | 0 <= x < 256

  function BigEndian(s: seq<octet>): nat {
    if s == [] then 0 else 256 * BigEndian(s[..|s| - 1]) + s[|s| - 1]
  }

  /** Base-256 digit `k`. */
  function ByteAt(v: nat, k: nat): octet {
    if k == 0 then v % 256 else ByteAt(v / 256, k - 1)
  }

  lemma {:induction false} BigEndianBound(s: seq<octet>)
    ensures BigEndian(s) < Pow256(|s|)
  {
    if s != [] {
      BigEndianBound(s[..|s| - 1]);
    }
  }

  lemma {:induction false} BigEndianConcat(a: seq<octet>, b: seq<octet>)
    ensures BigEndian(a + b) == BigEndian(a) * Pow256(|b|) + BigEndian(b)
    decreases |b|
  {
    if b == [] {
      assert a + b == a;
    } else {
      var c := b[..|b| - 1];
      BigEndianConcat(a, c);
      assert (a + b)[..|a + b| - 1] == a + c;
      assert 256 * (BigEndian(a) * Pow256(|c|)) == BigEndian(a) * (256 * Pow256(|c|));
    }
  }

  /** Bytes that are the digits of a number small enough for them spell it. */
  lemma {:induction false} BytesSpell(s: seq<octet>, v: nat)
    requires v < Pow256(|s|)
    requires forall k :: 0 <= k < |s| ==> s[|s| - 1 - k] == ByteAt(v, k)
    ensures BigEndian(s) == v
  {
    if s != [] {
      var c := s[..|s| - 1];
      forall k | 0 <= k < |c|
        ensures c[|c| - 1 - k] == ByteAt(v / 256, k)
      {
        assert s[|s| - 1 - (k + 1)] == ByteAt(v, k + 1);
      }
      assert s[|s| - 1 - 0] == ByteAt(v, 0);
      BytesSpell(c, v / 256);
    }
  }

  /** Four bytes make a word, eight make two. */
  lemma WholeWords()
    ensures Pow256(4) == WORD_SIZE && Pow256(8) == 0x1_0000_0000_0000_0000
  {
    assert Pow256(1) == 256 && Pow256(2) == 0x1_0000 && Pow256(3) == 0x100_0000;
    assert Pow256(5) == 256 * Pow256(4) && Pow256(6) == 256 * Pow256(5) && Pow256(7) == 256 * Pow256(6);
  }

  /** A string without a leading zero byte is the shortest spelling of its number. */
  lemma LeadingByte(s: seq<octet>)
    requires s != [] && s[0] != 0
    ensures Pow256(|s| - 1) <= BigEndian(s)
  {
    BigEndianConcat(s[..1], s[1..]);
    assert s[..1] + s[1..] == s;
    assert BigEndian(s[..1]) == s[0] by {
      assert s[..1][..0] == [];
    }
    AtLeastOnce(BigEndian(s[..1]), Pow256(|s| - 1));
  }

  lemma AtLeastOnce(a: nat, p: nat)
    requires a >= 1
    ensures a * p >= p
  {
  }

  predicate Minimal(s: seq<octet>) {
    s == [] || s[0] != 0
  }

  lemma {:induction false} Pow256Monotone(a: nat, b: nat)
    requires a <= b
    ensures Pow256(a) <= Pow256(b)
  {
    if a < b {
      Pow256Monotone(a, b - 1);
    }
  }

  /** Two strings without leading zero bytes that denote the same number are the same string. */
  lemma {:induction false} MinimalUnique(a: seq<octet>, b: seq<octet>)
    requires Minimal(a) && Minimal(b) && BigEndian(a) == BigEndian(b)
    ensures a == b
    decreases |a|
  {
    BigEndianBound(a);
    BigEndianBound(b);
    if a != [] {
      LeadingByte(a);
    }
    if b != [] {
      LeadingByte(b);
    }
    if |a| < |b| {
      Pow256Monotone(|a|, |b| - 1);
    } else if |b| < |a| {
      Pow256Monotone(|b|, |a| - 1);
    }
    SameLength(a, b);
  }

  lemma {:induction false} SameLength(a: seq<octet>, b: seq<octet>)
    requires |a| == |b| && BigEndian(a) == BigEndian(b)
    ensures a == b
  {
    if a != [] {
      SameLength(a[..|a| - 1], b[..|b| - 1]);
      assert a == a[..|a| - 1] + [a[|a| - 1]];
      assert b == b[..|b| - 1] + [b[|b| - 1]];
    }
  }
}
