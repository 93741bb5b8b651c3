/**
 Addresses as big-endian numbers: what masks, comparison and increment do to them.  An address
 is one 32-bit word or four, most significant first.
 */
module AddrSpec {
  import opened Primitives
  import opened Words

  const ALL_ONES: u32 := 0xFFFF_FFFF

  datatype Family = Inet | Inet6 | Other

  /** The number of words the operations look at. */
  function Span(af: Family): nat {
    match af
    case Inet => 1
    case Inet6 => 4
    case Other => 0
  }

  predicate MasklenValid(af: Family, l: nat) {
    af != Other && l <= 32 * Span(af)
  }

  /** The address as a number. */
  function Num(ws: seq<u32>): nat {
    if ws == [] then 0 else WORD_SIZE * Num(ws[..|ws| - 1]) + ws[|ws| - 1]
  }

  lemma {:induction false} NumBound(ws: seq<u32>)
    ensures Num(ws) < Pow2(32 * |ws|)
  {
    if ws != [] {
      NumBound(ws[..|ws| - 1]);
      WordStep(|ws| - 1);
    }
  }

  lemma WordStep(k: nat)
    ensures Pow2(32 * (k + 1)) == Pow2(32 * k) * WORD_SIZE
  {
    Pow2Adds(32 * k, 32);
    assert Pow2(32) == WORD_SIZE by { WordIsPow2(); }
  }

  lemma {:induction false} Pow2Adds(a: nat, b: nat)
    ensures Pow2(a + b) == Pow2(a) * Pow2(b)
  {
    if b > 0 {
      Pow2Adds(a, b - 1);
      Double(Pow2(a), Pow2(b - 1));
    }
  }

  lemma Double(a: nat, b: nat)
    ensures 2 * (a * b) == a * (2 * b)
  {
  }

  lemma {:induction false} NumInjective(s: seq<u32>, t: seq<u32>)
    requires |s| == |t| && Num(s) == Num(t)
    ensures s == t
  {
    if s != [] {
      var a, b, x, y := s[..|s| - 1], t[..|t| - 1], s[|s| - 1], t[|t| - 1];
      SameWords(Num(a), x, Num(b), y);
      NumInjective(a, b);
      assert s == a + [x] && t == b + [y];
    }
  }

  lemma SameWords(a: nat, x: u32, b: nat, y: u32)
    requires WORD_SIZE * a + x == WORD_SIZE * b + y
    ensures a == b && x == y
  {
  }

  // ----- masks -----

  /** `0xffffffff << (32 - l)`, cut to 32 bits. */
  function ShiftedOnes(l: nat): u32
    requires 0 < l <= 32
  {
    (ALL_ONES * Pow2(32 - l)) % WORD_SIZE
  }

  lemma ShiftedOnesValue(l: nat)
    requires 0 < l <= 32
    ensures Pow2(32 - l) <= WORD_SIZE / 2 && ShiftedOnes(l) == WORD_SIZE - Pow2(32 - l)
  {
    WordIsPow2();
    Pow2Monotone(32 - l, 31);
    var p := Pow2(32 - l);
    ModOf(ALL_ONES * p, WORD_SIZE, p - 1, WORD_SIZE - p);
  }

  /** Word `i` of the mask of length `l`. */
  function MaskWord(i: nat, l: nat): u32 {
    if 32 * i + 32 <= l then ALL_ONES
    else if l <= 32 * i then 0
    else ShiftedOnes(l - 32 * i)
  }

  /** The mask of length `l` on `n` words. */
  function Mask(n: nat, l: nat): (m: seq<u32>)
    ensures |m| == n && forall i :: 0 <= i < n ==> m[i] == MaskWord(i, l)
  {
    seq(n, i requires 0 <= i < n => MaskWord(i, l))
  }

  function And32(a: u32, b: u32): u32 {
    AndFits(a, b);
    And(a, b)
  }

  function Not32(a: u32): u32 {
    NotFits(a, 32);
    WordIsPow2();
    Not(a, 32)
  }

  lemma {:induction false} NotFits(a: nat, width: nat)
    ensures Not(a, width) < Pow2(width)
  {
    if width > 0 {
      NotFits(a / 2, width - 1);
    }
  }

  function AndAll(a: seq<u32>, b: seq<u32>): (r: seq<u32>)
    requires |a| == |b|
    ensures |r| == |a| && forall i :: 0 <= i < |r| ==> r[i] == And32(a[i], b[i])
  {
    seq(|a|, i requires 0 <= i < |a| => And32(a[i], b[i]))
  }

  function NotAll(a: seq<u32>): (r: seq<u32>)
    ensures |r| == |a| && forall i :: 0 <= i < |r| ==> r[i] == Not32(a[i])
  {
    seq(|a|, i requires 0 <= i < |a| => Not32(a[i]))
  }

  function Masked(ws: seq<u32>, l: nat): (r: seq<u32>)
    ensures |r| == |ws|
  {
    AndAll(ws, Mask(|ws|, l))
  }

  lemma MaskedLast(ws: seq<u32>, l: nat)
    requires ws != []
    ensures var k := |ws| - 1; Masked(ws, l) == Masked(ws[..k], l) + [And32(ws[k], MaskWord(k, l))]
  {
  }

  lemma {:induction false} AndOnes(w: nat, m: nat)
    requires w < Pow2(m)
    ensures And(w, Pow2(m) - 1) == w
  {
    if w > 0 {
      assert (Pow2(m) - 1) / 2 == Pow2(m - 1) - 1;
      AndOnes(w / 2, m - 1);
    }
  }

  lemma {:induction false} AndSame(w: nat)
    ensures And(w, w) == w
  {
    if w > 0 {
      AndSame(w / 2);
    }
  }

  /** The number the low `k` digits make. */
  function Low(w: nat, k: nat): nat {
    if k == 0 then 0 else 2 * Low(w / 2, k - 1) + w % 2
  }

  lemma {:induction false} LowIsMod(w: nat, k: nat)
    ensures Low(w, k) == w % Pow2(k)
  {
    if k == 0 {
      assert w % 1 == 0;
    } else {
      LowIsMod(w / 2, k - 1);
      HalveMod(w, Pow2(k - 1));
    }
  }

  lemma HalveMod(w: nat, p: nat)
    requires p > 0
    ensures w % (2 * p) == 2 * ((w / 2) % p) + w % 2
  {
    var q, r := (w / 2) / p, (w / 2) % p;
    Double(q, p);
    ModOf(w, 2 * p, q, 2 * r + w % 2);
  }

  lemma {:induction false} AndHighLow(w: nat, m: nat, k: nat, b: nat)
    requires k <= m && w < Pow2(m) && b + Pow2(k) == Pow2(m)
    ensures And(w, b) == w - Low(w, k)
  {
    if k == 0 {
      AndOnes(w, m);
    } else {
      var p, q := Pow2(m - 1), Pow2(k - 1);
      Pow2Monotone(k - 1, m - 1);
      assert b == 2 * (p - q) && w / 2 < p;
      AndHighLow(w / 2, m - 1, k - 1, p - q);
      AndHighStep(w, p - q, Low(w / 2, k - 1));
    }
  }

  /** A mask of high ones clears the low `k` digits. */
  lemma AndHigh(w: nat, m: nat, k: nat)
    requires k <= m && w < Pow2(m)
    ensures Pow2(k) <= Pow2(m) && And(w, Pow2(m) - Pow2(k)) == w - w % Pow2(k)
  {
    Pow2Monotone(k, m);
    AndHighLow(w, m, k, Pow2(m) - Pow2(k));
    LowIsMod(w, k);
  }

  lemma AndHighStep(w: nat, b: nat, low: nat)
    requires And(w / 2, b) == w / 2 - low
    ensures And(w, 2 * b) == w - (2 * low + w % 2)
  {
    AndEven(w, b);
    Halved(w, low);
  }

  lemma Halved(w: nat, low: nat)
    ensures 2 * (w / 2 - low) == w - (2 * low + w % 2)
  {
  }

  lemma AndEven(w: nat, b: nat)
    ensures And(w, 2 * b) == 2 * And(w / 2, b)
  {
  }

  /** One masked word keeps what is above the mask's end. */
  lemma MaskedWord(w: u32, i: nat, l: nat)
    requires 32 * i <= l <= 32 * i + 32
    ensures And(w, MaskWord(i, l)) == w - w % Pow2(32 * i + 32 - l)
  {
    WordIsPow2();
    var k := 32 * i + 32 - l;
    AndHigh(w, 32, k);
    if k == 32 {
      ModOf(w, WORD_SIZE, 0, w);
    } else {
      ShiftedOnesValue(l - 32 * i);
    }
  }

  lemma ModLow(hi: nat, lo: nat, p: nat, m: nat)
    requires lo < m && p > 0
    ensures (m * hi + lo) % (p * m) == m * (hi % p) + lo
  {
    var q, r := hi / p, hi % p;
    assert m * hi + lo == (p * m) * q + (m * r + lo) by {
      Distribute(m, p, q, r);
    }
    assert m * r + lo < p * m by {
      Below(m, r, p);
    }
    assert m * r >= 0;
    ModOf(m * hi + lo, p * m, q, m * r + lo);
  }

  lemma Distribute(m: nat, p: nat, q: nat, r: nat)
    ensures m * (p * q + r) == (p * m) * q + m * r
  {
  }

  lemma Below(m: nat, r: nat, p: nat)
    requires r < p
    ensures m * r + m <= p * m
  {
    assert m * (r + 1) <= m * p;
  }

  lemma ModHigh(hi: nat, lo: nat, p: nat, m: nat)
    requires p > 0
    ensures (m * p * hi + lo) % p == lo % p
  {
    var q, r := lo / p, lo % p;
    assert m * p * hi + lo == p * (m * hi + q) + r by {
      Rearrange(m, p, hi, q, r);
    }
    assert m * hi >= 0;
    ModOf(m * p * hi + lo, p, m * hi + q, r);
  }

  lemma Rearrange(m: nat, p: nat, hi: nat, q: nat, r: nat)
    ensures m * p * hi + (p * q + r) == p * (m * hi + q) + r
  {
    assert m * p * hi == p * (m * hi);
  }

  /** The last word is all host part. */
  lemma LowCase(hi: nat, lo: u32, h: nat)
    requires h >= 32
    ensures var n := WORD_SIZE * hi + lo;
            WORD_SIZE * (hi - hi % Pow2(h - 32)) == n - n % Pow2(h)
  {
    var p := Pow2(h - 32);
    WordIsPow2();
    Pow2Adds(h - 32, 32);
    ModLow(hi, lo, p, WORD_SIZE);
  }

  /** The host part ends within the last word. */
  lemma HighCase(hi: nat, lo: u32, h: nat)
    requires h <= 32
    ensures var n := WORD_SIZE * hi + lo;
            WORD_SIZE * hi + (lo - lo % Pow2(h)) == n - n % Pow2(h)
  {
    WordIsPow2();
    Pow2Adds(32 - h, h);
    ModHigh(hi, lo, Pow2(h), Pow2(32 - h));
  }

  /** The last word `x` of a masked address. */
  lemma MaskedNumLast(ws: seq<u32>, l: nat) returns (x: u32)
    requires ws != []
    ensures x == And32(ws[|ws| - 1], MaskWord(|ws| - 1, l))
    ensures Num(Masked(ws, l)) == WORD_SIZE * Num(Masked(ws[..|ws| - 1], l)) + x
  {
    var k := |ws| - 1;
    x := And32(ws[k], MaskWord(k, l));
    MaskedLast(ws, l);
    NumLast(Masked(ws[..k], l), x);
  }

  lemma LastCleared(w: u32, k: nat, l: nat)
    requires l <= 32 * k
    ensures And32(w, MaskWord(k, l)) == 0
  {
  }

  /** Masking clears exactly the host part: the remainder by 2 to the number of host bits. */
  lemma {:induction false} MaskedNum(ws: seq<u32>, l: nat)
    requires l <= 32 * |ws|
    ensures Num(Masked(ws, l)) == Num(ws) - Num(ws) % Pow2(32 * |ws| - l)
  {
    if ws == [] {
      assert 0 % Pow2(0) == 0;
    } else {
      var k := |ws| - 1;
      var init, lo, h := ws[..k], ws[k], 32 * |ws| - l;
      var hi, high := Num(init), Num(Masked(init, l));
      var x := MaskedNumLast(ws, l);
      if l <= 32 * k {
        MaskedNum(init, l);
        LastCleared(lo, k, l);
        MaskLow(hi, lo, h, high, x, Num(ws), Num(Masked(ws, l)));
      } else {
        MaskedAll(init, l);
        MaskedWord(lo, k, l);
        MaskHigh(hi, lo, h, high, x, Num(ws), Num(Masked(ws, l)));
      }
    }
  }

  lemma MaskLow(hi: nat, lo: u32, h: nat, high: nat, x: nat, n: nat, m: nat)
    requires h >= 32 && high == hi - hi % Pow2(h - 32) && x == 0
    requires n == WORD_SIZE * hi + lo && m == WORD_SIZE * high + x
    ensures m == n - n % Pow2(h)
  {
    LowCase(hi, lo, h);
  }

  lemma MaskHigh(hi: nat, lo: u32, h: nat, high: nat, x: nat, n: nat, m: nat)
    requires h <= 32 && high == hi && x == lo - lo % Pow2(h)
    requires n == WORD_SIZE * hi + lo && m == WORD_SIZE * high + x
    ensures m == n - n % Pow2(h)
  {
    HighCase(hi, lo, h);
  }

  lemma NumLast(ws: seq<u32>, w: u32)
    ensures Num(ws + [w]) == WORD_SIZE * Num(ws) + w
  {
    assert (ws + [w])[..|ws|] == ws;
  }

  lemma {:induction false} MaskedAll(ws: seq<u32>, l: nat)
    requires 32 * |ws| <= l
    ensures Masked(ws, l) == ws
  {
    if ws != [] {
      var k := |ws| - 1;
      MaskedAll(ws[..k], l);
      MaskedLast(ws, l);
      AndOnes(ws[k], 32) by { WordIsPow2(); }
      assert ALL_ONES == Pow2(32) - 1 by { WordIsPow2(); }
      assert ws == ws[..k] + [ws[k]];
    }
  }

  // ----- host parts -----

  function HostPart(ws: seq<u32>, l: nat): (r: seq<u32>)
    ensures |r| == |ws|
  {
    AndAll(ws, NotAll(Mask(|ws|, l)))
  }

  predicate AllZero(ws: seq<u32>) {
    forall i :: 0 <= i < |ws| ==> ws[i] == 0
  }

  /** A word is its part under a mask plus its part under the inverted mask. */
  lemma {:induction false} AndNotSum(a: nat, m: nat, width: nat)
    requires a < Pow2(width)
    ensures And(a, m) + And(a, Not(m, width)) == a
  {
    if width > 0 {
      AndNotSum(a / 2, m / 2, width - 1);
      var n := Not(m, width);
      assert n / 2 == Not(m / 2, width - 1) && n % 2 == 1 - m % 2;
      AndSplit(a, m);
      AndSplit(a, n);
    }
  }

  lemma AndSplit(a: nat, b: nat)
    ensures And(a, b) == 2 * And(a / 2, b / 2) + Digit(a % 2 == 1 && b % 2 == 1)
  {
  }

  lemma WordHost(w: u32, m: u32)
    ensures And32(w, Not32(m)) == 0 <==> And32(w, m) == w
  {
    AndNotSum(w, m, 32) by { WordIsPow2(); }
  }

  lemma HostPartZeroIff(ws: seq<u32>, l: nat)
    ensures AllZero(HostPart(ws, l)) <==> Masked(ws, l) == ws
  {
    var m := Mask(|ws|, l);
    forall i | 0 <= i < |ws|
      ensures HostPart(ws, l)[i] == 0 <==> Masked(ws, l)[i] == ws[i]
    {
      WordHost(ws[i], m[i]);
    }
  }

  predicate NoHostBits(ws: seq<u32>, l: nat)
    requires l <= 32 * |ws|
  {
    Num(ws) % Pow2(32 * |ws| - l) == 0
  }

  /** The host part is zero exactly when 2 to the number of host bits divides the address. */
  lemma HostZeroIffDivides(ws: seq<u32>, l: nat)
    requires l <= 32 * |ws|
    ensures AllZero(HostPart(ws, l)) <==> NoHostBits(ws, l)
  {
    HostPartZeroIff(ws, l);
    MaskedNum(ws, l);
    if Num(Masked(ws, l)) == Num(ws) {
      NumInjective(Masked(ws, l), ws);
    }
  }

  /** Masking gives the net exactly when the net has no host bits and both share the network part. */
  lemma NetMatchIff(host: seq<u32>, net: seq<u32>, l: nat)
    requires |host| == |net| && l <= 32 * |host|
    ensures Masked(host, l) == net <==> Matches(host, net, l)
  {
    var p := Pow2(32 * |host| - l);
    MaskedNum(host, l);
    QuotientOf(Num(host), Num(net), p);
    if Num(Masked(host, l)) == Num(net) {
      NumInjective(Masked(host, l), net);
    }
  }

  /** The same for the numbers, with the conditions under one name. */
  lemma SameNet(host: seq<u32>, net: seq<u32>, l: nat)
    requires |host| == |net| && l <= 32 * |host|
    ensures Num(Masked(host, l)) == Num(net) <==> Matches(host, net, l)
  {
    NetMatchIff(host, net, l);
    if Num(Masked(host, l)) == Num(net) {
      NumInjective(Masked(host, l), net);
    }
  }

  /** The net has no host bits, and both addresses the same network part. */
  predicate Matches(host: seq<u32>, net: seq<u32>, l: nat)
    requires |host| == |net| && l <= 32 * |host|
  {
    var p := Pow2(32 * |host| - l);
    NoHostBits(net, l) && Num(host) / p == Num(net) / p
  }

  lemma QuotientOf(a: nat, b: nat, p: nat)
    requires p > 0
    ensures a - a % p == b <==> b % p == 0 && a / p == b / p
  {
    assert a == p * (a / p) + a % p && b == p * (b / p) + b % p;
    if a - a % p == b {
      ModOf(b, p, a / p, 0);
      assert p * (a / p) == p * (b / p);
      MulSign(p, a / p - b / p);
    }
  }

  lemma {:induction false} NotNum(a: nat, width: nat)
    requires a < Pow2(width)
    ensures Not(a, width) == Pow2(width) - 1 - a
  {
    if width > 0 {
      NotNum(a / 2, width - 1);
    }
  }

  /** Inverting an address counts it down from the last one. */
  lemma {:induction false} InvertNum(ws: seq<u32>)
    ensures Num(NotAll(ws)) == Pow2(32 * |ws|) - 1 - Num(ws)
  {
    if ws != [] {
      var k := |ws| - 1;
      InvertNum(ws[..k]);
      assert NotAll(ws)[..k] == NotAll(ws[..k]);
      WordIsPow2();
      NotNum(ws[k], 32);
      WordStep(k);
    }
  }

  // ----- order -----

  /** The bytes of an address, most significant first. */
  function Bytes(ws: seq<u32>): (s: seq<octet>)
    ensures |s| == 4 * |ws|
  {
    if ws == [] then []
    else
      var w := ws[|ws| - 1];
      Bytes(ws[..|ws| - 1]) + [ByteAt(w, 3), ByteAt(w, 2), ByteAt(w, 1), ByteAt(w, 0)]
  }

  lemma {:induction false} BytesNum(ws: seq<u32>)
    ensures BigEndian(Bytes(ws)) == Num(ws)
  {
    if ws != [] {
      var w := ws[|ws| - 1];
      var b: seq<octet> := [ByteAt(w, 3), ByteAt(w, 2), ByteAt(w, 1), ByteAt(w, 0)];
      BytesNum(ws[..|ws| - 1]);
      WholeWords();
      BytesSpell(b, w);
      BigEndianConcat(Bytes(ws[..|ws| - 1]), b);
    }
  }

  /** The first difference between byte strings decides between their numbers. */
  lemma {:induction false} FirstDifference(s: seq<octet>, t: seq<octet>, i: nat)
    requires |s| == |t| && i < |s| && s[..i] == t[..i] && s[i] < t[i]
    ensures BigEndian(s) < BigEndian(t)
    decreases |s|
  {
    var k := |s| - 1;
    if i < k {
      assert s[..k][..i] == s[..i] && t[..k][..i] == t[..i];
      FirstDifference(s[..k], t[..k], i);
    }
  }

  // ----- increment -----

  function Increment(ws: seq<u32>): (r: seq<u32>)
    ensures |r| == |ws|
  {
    if ws == [] then []
    else
      var k := |ws| - 1;
      var n := Add32(ws[k], 1);
      (if n != 0 then ws[..k] else Increment(ws[..k])) + [n]
  }

  lemma Carry(hi: nat, w: u32, p: nat)
    requires hi < p
    ensures WORD_SIZE * hi + w + 1 == p * WORD_SIZE <==> hi + 1 == p && w + 1 == WORD_SIZE
    ensures Add32(w, 1) == if w + 1 == WORD_SIZE then 0 else w + 1
  {
  }

  lemma IncrementStep(init: seq<u32>, w: u32, p: nat)
    requires Num(init) < p && Num(Increment(init)) == if Num(init) + 1 == p then 0 else Num(init) + 1
    ensures Num(Increment(init + [w]))
            == if Num(init + [w]) + 1 == p * WORD_SIZE then 0 else Num(init + [w]) + 1
  {
    var n := Add32(w, 1);
    assert (init + [w])[..|init|] == init;
    NumLast(init, w);
    NumLast(init, n);
    NumLast(Increment(init), n);
    Carry(Num(init), w, p);
  }

  /** Incrementing adds one, and the last address wraps to zero. */
  lemma {:induction false} IncrementNum(ws: seq<u32>)
    ensures Num(Increment(ws)) == if Num(ws) + 1 == Pow2(32 * |ws|) then 0 else Num(ws) + 1
  {
    if ws != [] {
      var k := |ws| - 1;
      IncrementNum(ws[..k]);
      NumBound(ws[..k]);
      assert ws == ws[..k] + [ws[k]];
      IncrementStep(ws[..k], ws[k], Pow2(32 * k));
      WordStep(k);
    }
  }
}
