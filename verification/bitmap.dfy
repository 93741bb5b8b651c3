/** The bit vector: a growable array of 32-bit words, the set of naturals it stands for, and its string form. */
module Bitmaps {
  import opened Primitives
  import opened Words

  const BITMAP_MAX: nat := 0x100_0000

  // ----- the number and the set a word sequence stands for -----

  function Val(s: seq<u32>): nat {
    if s == [] then 0 else s[0] + WORD_SIZE * Val(s[1..])
  }

  predicate Test(s: seq<u32>, n: nat) {
    n / 32 < |s| && Bit(s[n / 32], n % 32)
  }

  function Members(s: seq<u32>): set<nat> {
    set n | 0 <= n < 32 * |s| && Test(s, n)
  }

  lemma InMembers(s: seq<u32>, n: nat)
    ensures n in Members(s) <==> Test(s, n)
  {
  }

  /** The set of bits is the set of binary digits of the number. */
  lemma {:induction false} BitOfVal(s: seq<u32>, n: nat)
    ensures Bit(Val(s), n) <==> Test(s, n)
    decreases |s|
  {
    if s == [] {
      BitZero(n);
    } else {
      WordIsPow2();
      BitSplit(s[0], Val(s[1..]), 32, n);
      if n >= 32 {
        BitOfVal(s[1..], n - 32);
        assert (n - 32) / 32 == n / 32 - 1 && (n - 32) % 32 == n % 32;
      }
    }
  }

  /** Bitmaps with the same members denote the same number, however long their arrays are. */
  lemma MembersDetermineVal(s: seq<u32>, t: seq<u32>)
    requires Members(s) == Members(t)
    ensures Val(s) == Val(t)
  {
    forall k: nat
      ensures Bit(Val(s), k) == Bit(Val(t), k)
    {
      BitOfVal(s, k);
      BitOfVal(t, k);
      InMembers(s, k);
      InMembers(t, k);
    }
    BitsDetermine(Val(s), Val(t));
  }

  lemma ValDeterminesMembers(s: seq<u32>, t: seq<u32>)
    requires Val(s) == Val(t)
    ensures Members(s) == Members(t)
  {
    forall n: nat
      ensures n in Members(s) <==> n in Members(t)
    {
      BitOfVal(s, n);
      BitOfVal(t, n);
      InMembers(s, n);
      InMembers(t, n);
    }
  }

  function WithBit(w: u32, k: nat): u32
    requires k < 32
  {
    Pow2Fits(k);
    OrFits(w, Pow2(k));
    Or(w, Pow2(k))
  }

  function WithoutBit(w: u32, k: nat): u32
    requires k < 32
  {
    AndFits(w, Not(Pow2(k), 32));
    And(w, Not(Pow2(k), 32))
  }

  lemma WithBitBits(w: u32, k: nat, j: nat)
    requires k < 32 && j < 32
    ensures Bit(WithBit(w, k), j) <==> j == k || Bit(w, j)
    ensures Bit(WithoutBit(w, k), j) <==> j != k && Bit(w, j)
  {
    BitOr(w, Pow2(k), j);
    BitPow2(k, j);
    BitAnd(w, Not(Pow2(k), 32), j);
    BitNot(Pow2(k), 32, j);
  }

  lemma SetBitInserts(s: seq<u32>, n: nat)
    requires n / 32 < |s|
    ensures Members(s[n / 32 := WithBit(s[n / 32], n % 32)]) == Members(s) + {n}
  {
    var t := s[n / 32 := WithBit(s[n / 32], n % 32)];
    forall m: nat
      ensures m in Members(t) <==> m in Members(s) || m == n
    {
      InMembers(t, m);
      InMembers(s, m);
      WithBitBits(s[n / 32], n % 32, m % 32);
    }
  }

  lemma ClearBitRemoves(s: seq<u32>, n: nat)
    requires n / 32 < |s|
    ensures Members(s[n / 32 := WithoutBit(s[n / 32], n % 32)]) == Members(s) - {n}
  {
    var t := s[n / 32 := WithoutBit(s[n / 32], n % 32)];
    forall m: nat
      ensures m in Members(t) <==> m in Members(s) && m != n
    {
      InMembers(t, m);
      InMembers(s, m);
      WithBitBits(s[n / 32], n % 32, m % 32);
    }
  }

  lemma SameMembers(s: seq<u32>, t: seq<u32>)
    requires forall n: nat :: Test(s, n) <==> Test(t, n)
    ensures Members(s) == Members(t)
  {
    forall n: nat
      ensures n in Members(s) <==> n in Members(t)
    {
      InMembers(s, n);
      InMembers(t, n);
    }
  }

  lemma ZerosAddNothing(s: seq<u32>, t: seq<u32>)
    requires |s| <= |t| && s == t[..|s|] && forall i :: |s| <= i < |t| ==> t[i] == 0
    ensures Members(s) == Members(t)
  {
    forall n: nat
      ensures Test(s, n) <==> Test(t, n)
    {
      if |s| <= n / 32 < |t| {
        BitZero(n % 32);
      }
    }
    SameMembers(s, t);
  }

  lemma AllZero(s: seq<u32>)
    requires forall i :: 0 <= i < |s| ==> s[i] == 0
    ensures Members(s) == {}
    ensures Val(s) == 0
  {
    ZerosAddNothing([], s);
    assert Members([]) == {};
    MembersDetermineVal([], s);
  }

  // ----- bounds from the top word -----

  lemma {:induction false} BitLower(w: nat, k: nat)
    requires Bit(w, k)
    ensures w >= Pow2(k)
  {
    if k > 0 {
      BitLower(w / 2, k - 1);
    }
  }

  lemma {:induction false} Pow256IsPow2(k: nat)
    ensures Pow256(k) == Pow2(8 * k)
  {
    if k > 0 {
      Pow256IsPow2(k - 1);
      var m := 8 * (k - 1);
      assert Pow2(m + 2) == 4 * Pow2(m);
      assert Pow2(m + 4) == 4 * Pow2(m + 2);
      assert Pow2(m + 6) == 4 * Pow2(m + 4);
      assert Pow2(m + 8) == 4 * Pow2(m + 6);
    }
  }

  /** `bits` is the position after the highest member, or zero. */
  predicate IsWidth(members: set<nat>, bits: nat) {
    && (bits == 0 <==> members == {})
    && (bits > 0 ==> bits - 1 in members)
    && forall m :: m in members ==> m < bits
  }

  /** The width bounds the number from both sides in bytes. */
  lemma WidthInBytes(s: seq<u32>, bits: nat)
    requires IsWidth(Members(s), bits)
    ensures var need := (bits + 7) / 8;
            Val(s) < Pow256(need) && (need > 0 ==> Pow256(need - 1) <= Val(s))
  {
    var need := (bits + 7) / 8;
    WidthAbove(s, bits, need);
    if need > 0 { WidthBelow(s, bits, need - 1); }
  }

  lemma WidthAbove(s: seq<u32>, bits: nat, need: nat)
    requires IsWidth(Members(s), bits) && bits <= 8 * need
    ensures Val(s) < Pow256(need)
  {
    forall k | bits <= k
      ensures !Bit(Val(s), k)
    {
      BitOfVal(s, k);
      InMembers(s, k);
    }
    BitsBelow(Val(s), bits);
    Pow256IsPow2(need);
    Pow2Monotone(bits, 8 * need);
  }

  lemma WidthBelow(s: seq<u32>, bits: nat, less: nat)
    requires IsWidth(Members(s), bits) && bits > 0 && 8 * less <= bits - 1
    ensures Pow256(less) <= Val(s)
  {
    BitOfVal(s, bits - 1);
    InMembers(s, bits - 1);
    BitLower(Val(s), bits - 1);
    Pow256IsPow2(less);
    Pow2Monotone(8 * less, bits - 1);
  }

  // ----- bytes of words -----

  /** The C expression `1 << (8 * j)` for a byte position inside a word. */
  function Scale(j: nat): (r: nat)
    requires j < 4
    ensures r > 0
  {
    if j == 0 then 1 else if j == 1 then 0x100 else if j == 2 then 0x1_0000 else 0x100_0000
  }

  /** The C expression `(w >> (j * 8)) & 0xff`. */
  function ByteOf(w: u32, j: nat): octet
    requires j < 4
  {
    w / Scale(j) % 256
  }

  lemma ByteOfIsDigit(w: u32, j: nat)
    requires j < 4
    ensures ByteOf(w, j) == ByteAt(w, j)
  {
    FewBytes(w);
    DivideTwice(w);
  }

  lemma DivideTwice(w: u32)
    ensures w / 256 / 256 == w / 0x1_0000
    ensures w / 256 / 256 / 256 == w / 0x100_0000
  {
  }

  lemma FewBytes(v: nat)
    ensures ByteAt(v, 0) == v % 256
    ensures ByteAt(v, 1) == v / 256 % 256
    ensures ByteAt(v, 2) == v / 256 / 256 % 256
    ensures ByteAt(v, 3) == v / 256 / 256 / 256 % 256
  {
    assert ByteAt(v, 3) == ByteAt(v / 256, 2) == ByteAt(v / 256 / 256, 1);
    assert ByteAt(v, 2) == ByteAt(v / 256, 1);
  }

  lemma ByteOfPair(low: u32, high: nat, k: nat)
    ensures ByteAt(low + WORD_SIZE * high, k) == if k < 4 then ByteAt(low, k) else ByteAt(high, k - 4)
  {
    var v := low + WORD_SIZE * high;
    var v1, v2, v3, v4 := v / 256, v / 256 / 256, v / 256 / 256 / 256, v / 256 / 256 / 256 / 256;
    assert v1 == low / 256 + 0x100_0000 * high;
    assert v2 == low / 256 / 256 + 0x1_0000 * high;
    assert v3 == low / 256 / 256 / 256 + 0x100 * high;
    assert v4 == high;
    FewBytes(v);
    FewBytes(low);
    if k >= 4 {
      assert ByteAt(v, k) == ByteAt(v1, k - 1) == ByteAt(v2, k - 2) == ByteAt(v3, k - 3) == ByteAt(v4, k - 4);
    }
  }

  lemma {:induction false} ByteOfVal(s: seq<u32>, i: nat, j: nat)
    requires i < |s| && j < 4
    ensures ByteAt(Val(s), 4 * i + j) == ByteOf(s[i], j)
  {
    ByteOfPair(s[0], Val(s[1..]), 4 * i + j);
    if i == 0 {
      ByteOfIsDigit(s[0], j);
    } else {
      ByteOfVal(s[1..], i - 1, j);
    }
  }

  // ----- placing one byte -----

  lemma {:induction false} AddToWord(s: seq<u32>, o: nat, x: nat)
    requires o < |s| && s[o] + x < WORD_SIZE
    ensures Val(s[o := s[o] + x]) == Val(s) + x * Pow256(4 * o)
  {
    var t := s[o := s[o] + x];
    if o == 0 {
      assert t[1..] == s[1..];
    } else {
      assert t[1..] == s[1..][o - 1 := s[1..][o - 1] + x];
      AddToWord(s[1..], o - 1, x);
      var p := Pow256(4 * (o - 1));
      assert Pow256(4 * o - 2) == 0x1_0000 * p;
      assert Pow256(4 * o) == WORD_SIZE * p;
      assert WORD_SIZE * (x * p) == x * (WORD_SIZE * p);
    }
  }

  /** The `n` lowest bytes of a word are zero. */
  predicate LowZero(w: nat, n: nat)
    requires n <= 4
  {
    if n == 0 then true
    else if n == 1 then w % 0x100 == 0
    else if n == 2 then w % 0x1_0000 == 0
    else if n == 3 then w % 0x100_0000 == 0
    else w % 0x1_0000_0000 == 0
  }

  /** A byte of a big-endian string lands, by `|`, in digits that are still zero. */
  lemma PlaceByte(w: u32, b: octet, j: nat)
    requires j < 4 && LowZero(w, j + 1)
    ensures Or(w, b * Scale(j)) == w + b * Scale(j) < WORD_SIZE
    ensures LowZero(w + b * Scale(j), j)
  {
    if j == 0 {
      PlaceLow(w, b);
    } else if j == 1 {
      PlaceSecond(w, b);
    } else if j == 2 {
      PlaceThird(w, b);
    } else {
      PlaceTop(w, b);
    }
  }

  lemma PlaceLow(w: u32, b: octet)
    requires w % 0x100 == 0
    ensures Or(w, b) == w + b < WORD_SIZE
  {
    WordIsPow2();
    OrDisjoint(w / 0x100, b, 8);
  }

  lemma PlaceSecond(w: u32, b: octet)
    requires w % 0x1_0000 == 0
    ensures Or(w, b * 0x100) == w + b * 0x100 < WORD_SIZE
    ensures (w + b * 0x100) % 0x100 == 0
  {
    WordIsPow2();
    OrDisjoint(w / 0x1_0000, b * 0x100, 16);
  }

  lemma PlaceThird(w: u32, b: octet)
    requires w % 0x100_0000 == 0
    ensures Or(w, b * 0x1_0000) == w + b * 0x1_0000 < WORD_SIZE
    ensures (w + b * 0x1_0000) % 0x1_0000 == 0
  {
    WordIsPow2();
    OrDisjoint(w / 0x100_0000, b * 0x1_0000, 24);
  }

  lemma Multiple(w: u32)
    requires w % WORD_SIZE == 0
    ensures w == 0
  {
  }

  lemma PlaceTop(w: u32, b: octet)
    requires w % WORD_SIZE == 0
    ensures Or(w, b * 0x100_0000) == w + b * 0x100_0000 < WORD_SIZE
    ensures (w + b * 0x100_0000) % 0x100_0000 == 0
  {
    Multiple(w);
    WordIsPow2();
    OrDisjoint(0, b * 0x100_0000, 32);
  }

  /** The byte at distance `rem` from the end weighs 256^(rem-1). */
  lemma ByteWeight(offset: nat, j: nat, b: octet)
    requires j < 4
    ensures b * Scale(j) * Pow256(4 * offset) == b * Pow256(4 * offset + j)
  {
    var p := Pow256(4 * offset);
    assert Pow256(4 * offset + 1) == 0x100 * p;
    assert Pow256(4 * offset + 2) == 0x1_0000 * p;
    assert Pow256(4 * offset + 3) == 0x100_0000 * p;
    assert b * Scale(j) * p == b * (Scale(j) * p);
  }

  lemma NextByte(s: seq<octet>, i: nat, rem: nat, v: nat)
    requires i < |s| && rem > 0
    requires v == BigEndian(s[..i]) * Pow256(rem)
    ensures v + s[i] * Pow256(rem - 1) == BigEndian(s[..i + 1]) * Pow256(rem - 1)
  {
    assert s[..i + 1][..i] == s[..i];
    var e, p := BigEndian(s[..i]), Pow256(rem - 1);
    assert e * (256 * p) == (256 * e) * p;
    assert (256 * e) * p + s[i] * p == (256 * e + s[i]) * p;
  }

  /** The bytes read so far stand, as a number, in front of room for the rest. */
  predicate Weighs(d: seq<u32>, s: seq<octet>, i: nat) {
    i <= |s| && Val(d) == BigEndian(s[..i]) * Pow256(|s| - i)
  }

  /** The word about to be written is clear from byte `j` down, and the words below it are zero. */
  predicate Cleared(d: seq<u32>, offset: int, j: nat, rem: int) {
    rem > 0 ==>
      && j < 4 && 0 <= offset < |d| && rem - 1 == 4 * offset + j
      && LowZero(d[offset], j + 1)
      && forall k :: 0 <= k < offset ==> d[k] == 0
  }

  lemma ReadOne(d: seq<u32>, s: seq<octet>, i: nat, offset: int, j: nat)
    requires i < |s| && Weighs(d, s, i) && Cleared(d, offset, j, |s| - i)
    ensures var w := Or(d[offset], s[i] * Scale(j));
            w < WORD_SIZE && Weighs(d[offset := w], s, i + 1) && LowZero(w, j)
  {
    var x := s[i] * Scale(j);
    PlaceByte(d[offset], s[i], j);
    var w: u32 := d[offset] + x;
    assert Or(d[offset], x) == w;
    AddedWeighs(d, s, i, offset, j, x, w);
  }

  /** Adding the byte, scaled to its place in the word, makes the number that one more byte spells. */
  lemma AddedWeighs(d: seq<u32>, s: seq<octet>, i: nat, offset: nat, j: nat, x: nat, w: u32)
    requires i < |s| && Weighs(d, s, i) && offset < |d| && j < 4 && |s| - i - 1 == 4 * offset + j
    requires x == s[i] * Scale(j) && w == d[offset] + x
    ensures Weighs(d[offset := w], s, i + 1)
  {
    AddToWord(d, offset, x);
    ByteWeight(offset, j, s[i]);
    WeighsNext(d, d[offset := w], s, i);
  }

  lemma WeighsNext(d: seq<u32>, t: seq<u32>, s: seq<octet>, i: nat)
    requires i < |s| && Weighs(d, s, i) && Val(t) == Val(d) + s[i] * Pow256(|s| - i - 1)
    ensures Weighs(t, s, i + 1)
  {
    NextByte(s, i, |s| - i, Val(d));
  }

  lemma ClearNext(d: seq<u32>, offset: int, j: nat, rem: int, w: u32)
    requires rem > 0 && Cleared(d, offset, j, rem) && LowZero(w, j)
    ensures j == 0 ==> Cleared(d[offset := w], offset - 1, 3, rem - 1)
    ensures j > 0 ==> Cleared(d[offset := w], offset, j - 1, rem - 1)
  {
  }

  lemma StartReading(d: seq<u32>, s: seq<octet>)
    requires s != [] && (|s| + 3) / 4 - 1 < |d|
    requires forall k :: 0 <= k < |d| ==> d[k] == 0
    ensures Weighs(d, s, 0) && Cleared(d, (|s| + 3) / 4 - 1, (|s| + 3) % 4, |s|)
  {
    AllZero(d);
    assert s[..0] == [];
  }

  // ----- the string form and back -----

  /** What bitmap_to_string writes for the words `s`. */
  predicate Spells(bytes: seq<octet>, s: seq<u32>) {
    Minimal(bytes) && BigEndian(bytes) == Val(s)
  }

  /** Reading back what was written gives the same set. */
  lemma StringRoundTrip(s: seq<u32>, bytes: seq<octet>, t: seq<u32>)
    requires Spells(bytes, s) && Val(t) == BigEndian(bytes)
    ensures Members(t) == Members(s)
  {
    ValDeterminesMembers(s, t);
  }

  /** The string is short enough to be read back exactly when every member is below the limit. */
  lemma ReadableIff(s: seq<u32>, bytes: seq<octet>, max: nat)
    requires Spells(bytes, s) && max % 8 == 0
    ensures |bytes| <= max / 8 <==> forall n :: n in Members(s) ==> n < max
  {
    BigEndianBound(bytes);
    Pow256IsPow2(|bytes|);
    Pow256IsPow2(max / 8);
    if |bytes| <= max / 8 {
      forall n | n in Members(s)
        ensures n < max
      {
        BitOfVal(s, n);
        if n >= 8 * |bytes| {
          BitAbove(Val(s), 8 * |bytes|, n);
        }
      }
    } else {
      LeadingByte(bytes);
      Pow256Monotone(max / 8, |bytes| - 1);
      if forall n :: n in Members(s) ==> n < max {
        forall k | max <= k
          ensures !Bit(Val(s), k)
        {
          BitOfVal(s, k);
          InMembers(s, k);
        }
        BitsBelow(Val(s), max);
      }
    }
  }

  /** The one member that may be set but does not survive the string form is the limit itself. */
  lemma LimitIsNotReadable(s: seq<u32>, bytes: seq<octet>)
    requires Spells(bytes, s) && forall n :: n in Members(s) ==> n <= BITMAP_MAX
    ensures |bytes| <= BITMAP_MAX / 8 <==> BITMAP_MAX !in Members(s)
  {
    ReadableIff(s, bytes, BITMAP_MAX);
  }

  lemma {:induction false} HasSpelling(v: nat) returns (bytes: seq<octet>)
    ensures Minimal(bytes) && BigEndian(bytes) == v
  {
    if v == 0 {
      bytes := [];
    } else {
      var high := HasSpelling(v / 256);
      bytes := high + [v % 256];
      assert bytes[..|bytes| - 1] == high;
      assert high == [] ==> v / 256 == 0;
    }
  }

  /** Setting one bit in cleared words, and what then is written. */
  lemma OneBit(zeros: seq<u32>, n: nat) returns (s: seq<u32>, bytes: seq<octet>)
    requires n / 32 < |zeros| && forall i :: 0 <= i < |zeros| ==> zeros[i] == 0
    ensures Members(s) == {n} && Spells(bytes, s)
  {
    AllZero(zeros);
    SetBitInserts(zeros, n);
    s := zeros[n / 32 := WithBit(zeros[n / 32], n % 32)];
    bytes := HasSpelling(Val(s));
  }

  /** A bitmap with the limit alone: it is written, and the string is too long to be read. */
  lemma LimitDoesNotSurvive()
    ensures exists s: seq<u32>, bytes: seq<octet> ::
              Members(s) == {0x100_0000} && Spells(bytes, s) && |bytes| > 0x20_0000
  {
    var zeros: seq<u32> := seq(BITMAP_MAX / 32 + 1, _ => 0);
    var s, bytes := OneBit(zeros, BITMAP_MAX);
    LimitIsNotReadable(s, bytes);
  }

  function StripZeros(s: seq<octet>): seq<octet> {
    if s != [] && s[0] == 0 then StripZeros(s[1..]) else s
  }

  lemma {:induction false} StripKeeps(s: seq<octet>)
    ensures Minimal(StripZeros(s)) && BigEndian(StripZeros(s)) == BigEndian(s)
  {
    if s != [] && s[0] == 0 {
      DropZero(s);
      StripKeeps(s[1..]);
    }
  }

  lemma DropZero(s: seq<octet>)
    requires s != [] && s[0] == 0
    ensures BigEndian(s) == BigEndian(s[1..])
  {
    assert s[..1] + s[1..] == s;
    BigEndianConcat(s[..1], s[1..]);
    assert s[..1][..0] == [];
  }

  /** Writing what was read gives the input without its leading zero bytes. */
  lemma RewritingStripsZeros(bytes: seq<octet>, s: seq<u32>, out: seq<octet>)
    requires Val(s) == BigEndian(bytes) && Spells(out, s)
    ensures out == StripZeros(bytes)
  {
    StripKeeps(bytes);
    MinimalUnique(out, StripZeros(bytes));
  }

  // ----- the object -----

  class Bitmap {
    var d: array<u32>
    var top: nat

    ghost predicate Valid()
      reads this, d
    {
      && top < d.Length
      && (forall i :: top < i < d.Length ==> d[i] == 0)
      && (top == 0 || d[top] != 0)
    }

    ghost function Bits(): set<nat>
      reads this, d
    {
      Members(d[..])
    }

    ghost function Number(): nat
      reads this, d
    {
      Val(d[..])
    }

    constructor ()
      ensures Valid() && fresh(d) && Bits() == {}
    {
      d := new u32[1](_ => 0);
      top := 0;
      new;
      AllZero(d[..]);
    }

    method Zero()
      modifies this`top, d
      requires d.Length > 0
      ensures Valid() && Bits() == {} && Number() == 0
      ensures forall i :: 0 <= i < d.Length ==> d[i] == 0
    {
      var i := 0;
      while i < d.Length
        invariant 0 <= i <= d.Length
        invariant forall j :: 0 <= j < i ==> d[j] == 0
      {
        d[i] := 0;
        i := i + 1;
      }
      top := 0;
      AllZero(d[..]);
    }

    method TestBit(n: u32) returns (r: bool)
      requires Valid()
      ensures r <==> n in Bits()
    {
      InMembers(d[..], n);
      BitZero(n % 32);
      if n / 32 > top {
        return false;
      }
      r := Bit(d[n / 32], n % 32);
    }

    /** Grows the array so that bit `n` has a word; -1 for a bit past the limit. */
    method Reserve(n: nat) returns (r: int)
      requires Valid()
      modifies this`d
      ensures Valid()
      ensures r == if n > BITMAP_MAX then -1 else 0
      ensures d == old(d) || fresh(d)
      ensures r == -1 ==> d == old(d)
      ensures r == 0 ==> n / 32 < d.Length
      ensures Bits() == old(Bits())
      ensures d.Length >= old(d.Length) && d[..old(d.Length)] == old(d[..])
    {
      assert d[..d.Length] == d[..];
      if n > BITMAP_MAX {
        return -1;
      }
      var nlen := n / 32 + 1;
      if d.Length < nlen {
        var tmp := new u32[nlen](_ => 0);
        var i := 0;
        while i < d.Length
          invariant 0 <= i <= d.Length
          invariant forall j :: 0 <= j < i ==> tmp[j] == d[j]
          invariant forall j :: i <= j < tmp.Length ==> tmp[j] == 0
          modifies tmp
        {
          tmp[i] := d[i];
          i := i + 1;
        }
        assert tmp[..d.Length] == d[..];
        ZerosAddNothing(d[..], tmp[..]);
        d := tmp;
      }
      return 0;
    }

    method SetBit(n: u32) returns (r: int)
      requires Valid()
      modifies this, d
      ensures Valid() && (d == old(d) || fresh(d))
      ensures r == if n > BITMAP_MAX then -1 else 0
      ensures Bits() == if r == 0 then old(Bits()) + {n} else old(Bits())
    {
      r := Reserve(n);
      if r != 0 {
        return;
      }
      var offset := n / 32;
      if offset > top {
        top := offset;
      }
      ghost var before := d[..];
      d[offset] := WithBit(d[offset], n % 32);
      assert d[..] == before[offset := WithBit(before[offset], n % 32)];
      SetBitInserts(before, n);
      WithBitBits(before[offset], n % 32, n % 32);
      BitZero(n % 32);
      KeepsNonZero(before[top], n % 32);
    }

    lemma KeepsNonZero(w: u32, k: nat)
      requires k < 32
      ensures WithBit(w, k) != 0
    {
      WithBitBits(w, k, k);
      BitZero(k);
    }

    /** Moves `top` down to the highest nonzero word. */
    method Retop()
      requires top < d.Length && forall i :: top < i < d.Length ==> d[i] == 0
      modifies this`top
      ensures Valid() && top <= old(top)
    {
      while top > 0 && d[top] == 0
        invariant top < d.Length && top <= old(top)
        invariant forall i :: top < i < d.Length ==> d[i] == 0
        decreases top
      {
        top := top - 1;
      }
    }

    method ClearBit(n: u32)
      requires Valid()
      modifies this`top, d
      ensures Valid()
      ensures Bits() == if n > BITMAP_MAX then old(Bits()) else old(Bits()) - {n}
    {
      if n > BITMAP_MAX {
        return;
      }
      var offset := n / 32;
      if offset > top {
        InMembers(d[..], n);
        BitZero(n % 32);
        return;
      }
      ghost var before := d[..];
      d[offset] := WithoutBit(d[offset], n % 32);
      assert d[..] == before[offset := WithoutBit(before[offset], n % 32)];
      ClearBitRemoves(before, n);
      Retop();
    }

    /** The position after the highest set bit, found by shifting the top word. */
    method NBits() returns (bits: nat)
      requires Valid()
      modifies this`top
      ensures Valid() && top == old(top)
      ensures IsWidth(Bits(), bits)
      ensures bits <= 32 * (top + 1)
    {
      Retop();
      if top == 0 && d[0] == 0 {
        AllZero(d[..]);
        return 0;
      }
      ghost var j, w;
      bits, j, w := LeadingBit(d[top], (top + 1) * 32);
      WidthFromTop(d[..], top, bits, j);
    }

    /** The shifting loop: one bit less for every place the word can be moved up. */
    static method LeadingBit(word: u32, start: nat) returns (bits: nat, ghost j: nat, ghost last: u32)
      requires word > 0 && start >= 32
      ensures j <= 31 && bits == start - j && Shifted(word, last, j) && Bit(last, 31)
    {
      var w: u32 := word;
      bits, j := start, 0;
      TopWordBound(word);
      while !Bit(w, 31)
        invariant 0 <= j <= 31 && bits == start - j
        invariant Shifted(word, w, j)
        decreases WORD_SIZE - w
      {
        ShiftOnce(word, w, j);
        w := (w * 2) % WORD_SIZE;
        bits := bits - 1;
        j := j + 1;
      }
      last := w;
    }

    /** `w` is `word` moved up by `j` places, and nothing has been pushed out. */
    static ghost predicate Shifted(word: u32, w: u32, j: nat) {
      && w > 0
      && (forall k: nat {:trigger Bit(w, k)} :: Bit(w, k) <==> k >= j && Bit(word, k - j))
      && (forall k: nat {:trigger Bit(word, k)} :: 32 - j <= k ==> !Bit(word, k))
    }

    static lemma ShiftOnce(word: u32, w: u32, j: nat)
      requires j <= 31 && Shifted(word, w, j) && !Bit(w, 31)
      ensures j < 31 && w < w * 2 < WORD_SIZE && Shifted(word, w * 2, j + 1)
    {
      WordIsPow2();
      if w >= Pow2(31) {
        TopBit(w, 31);
      }
      assert !Bit(word, 31 - j);
      var w2 := w * 2;
      forall k: nat
        ensures Bit(w2, k) <==> k >= j + 1 && Bit(word, k - (j + 1))
      {
        if k > 0 {
          assert Bit(w2, k) == Bit(w, k - 1);
        }
      }
      if j == 31 {
        forall k | 0 <= k
          ensures !Bit(w, k)
        {
        }
        BitsBelow(w, 0);
      }
    }

    static lemma TopWordBound(w: u32)
      ensures w > 0 ==> Shifted(w, w, 0)
    {
      WordIsPow2();
      forall k | 32 <= k
        ensures !Bit(w, k)
      {
        BitAbove(w, 32, k);
      }
    }

    lemma WidthFromTop(s: seq<u32>, t: nat, bits: nat, j: nat)
      requires t < |s| && (forall i :: t < i < |s| ==> s[i] == 0)
      requires j <= 31 && bits == (t + 1) * 32 - j
      requires exists w: u32 :: Shifted(s[t], w, j) && Bit(w, 31)
      ensures IsWidth(Members(s), bits)
    {
      assert (bits - 1) / 32 == t && (bits - 1) % 32 == 31 - j;
      InMembers(s, bits - 1);
      forall m | m in Members(s)
        ensures m < bits
      {
        BitZero(m % 32);
      }
    }

    method NBytes() returns (n: nat)
      requires Valid()
      modifies this`top
      ensures Valid() && top == old(top)
      ensures n <= 4 * (top + 1)
      ensures Number() < Pow256(n) && (n > 0 ==> Pow256(n - 1) <= Number())
    {
      var bits := NBits();
      WidthInBytes(d[..], bits);
      return (bits + 7) / 8;
    }

    /** Writes the shortest big-endian spelling of the number; -1 when the buffer is too small for it. */
    method ToString(s: array<octet>, l: nat) returns (r: int, ghost need: nat)
      requires Valid() && l <= s.Length && s as object != d
      modifies this`top, s
      ensures Valid() && top == old(top)
      ensures Number() < Pow256(need) && (need > 0 ==> Pow256(need - 1) <= Number())
      ensures r == if l < need then -1 else 0
      ensures r == 0 ==> need <= l && Spells(s[..need], d[..])
      ensures forall i :: 0 <= i < s.Length && (r == 0 ==> need <= i) ==> s[i] == old(s[i])
    {
      var size := NBytes();
      need := size;
      if l < size {
        return -1, need;
      }
      var len := size;
      ghost var v := Number();
      var k := 0;
      var i := 0;
      while i < top + 1
        invariant 0 <= i <= top + 1 && k == Min(4 * i, size)
        invariant forall m :: 0 <= m < k ==> s[size - 1 - m] == ByteAt(v, m)
        invariant forall m :: size <= m < s.Length ==> s[m] == old(s[m])
        modifies s
      {
        k := PutWord(s, i, k, len, v);
        i := i + 1;
      }
      IsSpelled(s[..size], d[..]);
      return 0, need;
    }

    /** The inner loop: the bytes of one word, lowest first, as far as there is room. */
    method PutWord(s: array<octet>, i: nat, k: nat, len: nat, ghost v: nat) returns (next: nat)
      requires Valid() && i <= top && len <= s.Length && s as object != d
      requires v == Number() && k == Min(4 * i, len)
      requires forall m :: 0 <= m < k ==> s[len - 1 - m] == ByteAt(v, m)
      modifies s
      ensures next == Min(4 * (i + 1), len)
      ensures forall m :: 0 <= m < next ==> s[len - 1 - m] == ByteAt(v, m)
      ensures forall m :: len <= m < s.Length ==> s[m] == old(s[m])
    {
      next := k;
      var j := 0;
      while j < 4
        invariant 0 <= j <= 4 && next == Min(4 * i + j, len)
        invariant forall m :: 0 <= m < next ==> s[len - 1 - m] == ByteAt(v, m)
        invariant forall m :: len <= m < s.Length ==> s[m] == old(s[m])
        modifies s
      {
        if next >= len {
          break;
        }
        ByteOfVal(d[..], i, j);
        s[len - 1 - next] := ByteOf(d[i], j);
        next := next + 1;
        j := j + 1;
      }
    }

    /** Bytes that are all the digits of the number, the leading one not zero, spell it. */
    lemma IsSpelled(bytes: seq<octet>, w: seq<u32>)
      requires Val(w) < Pow256(|bytes|) && (|bytes| > 0 ==> Pow256(|bytes| - 1) <= Val(w))
      requires forall m :: 0 <= m < |bytes| ==> bytes[|bytes| - 1 - m] == ByteAt(Val(w), m)
      ensures Spells(bytes, w)
    {
      BytesSpell(bytes, Val(w));
      if |bytes| > 0 && bytes[0] == 0 {
        DropZero(bytes);
        BigEndianBound(bytes[1..]);
      }
    }

    /** Reads a big-endian string; -1, and nothing changed, when it is longer than the limit. */
    method FromString(s: array<octet>, l: nat) returns (r: int)
      requires Valid() && l <= s.Length && s as object != d
      modifies this, d
      ensures Valid() && (d == old(d) || fresh(d))
      ensures r == if l > BITMAP_MAX / 8 then -1 else 0
      ensures r == -1 ==> d == old(d) && d[..] == old(d[..])
      ensures r == 0 ==> Number() == BigEndian(s[..l])
    {
      if l > BITMAP_MAX / 8 {
        return -1;
      }
      r := Reserve(l * 8);
      Zero();
      if l == 0 {
        return 0;
      }
      ReadBytes(s, l);
      Retop();
      return 0;
    }

    /** The copying loop of bitmap_from_string, over a cleared array. */
    method ReadBytes(s: array<octet>, l: nat)
      requires 0 < l <= s.Length && s as object != d && (l + 3) / 4 - 1 < d.Length
      requires forall i :: 0 <= i < d.Length ==> d[i] == 0
      modifies this`top, d
      ensures top < d.Length && forall i :: top < i < d.Length ==> d[i] == 0
      ensures Number() == BigEndian(s[..l])
    {
      var offset: int := (l + 3) / 4 - 1;
      top := offset;
      var shift := ((l + 3) % 4) * 8;
      var i := 0;
      ghost var bytes := s[..l];
      ghost var j: nat := (l + 3) % 4;
      StartReading(d[..], bytes);
      while i < l
        invariant 0 <= i <= l && top < d.Length
        invariant shift == 8 * j && j < 4
        invariant i < l ==> offset <= top
        invariant forall k :: top < k < d.Length ==> d[k] == 0
        invariant Weighs(d[..], bytes, i)
        invariant Cleared(d[..], offset, j, l - i)
        modifies d
      {
        ReadByte(s, i, offset, shift, bytes, j);
        if shift == 0 {
          offset := offset - 1;
          shift := 32 - 8;
          j := 3;
        } else {
          shift := shift - 8;
          j := j - 1;
        }
        i := i + 1;
      }
      assert bytes[..l] == bytes;
    }

    /** One byte goes to its place in the word at `offset`. */
    method ReadByte(s: array<octet>, i: nat, offset: nat, shift: nat, ghost bytes: seq<octet>, ghost j: nat)
      requires i < |bytes| <= s.Length && s as object != d && s[i] == bytes[i]
      requires shift == 8 * j && j < 4 && offset < d.Length
      requires Weighs(d[..], bytes, i) && Cleared(d[..], offset, j, |bytes| - i)
      modifies d
      ensures Weighs(d[..], bytes, i + 1)
      ensures j == 0 ==> Cleared(d[..], offset - 1, 3, |bytes| - i - 1)
      ensures j > 0 ==> Cleared(d[..], offset, j - 1, |bytes| - i - 1)
      ensures forall k :: 0 <= k < d.Length && k != offset ==> d[k] == old(d[k])
    {
      ghost var before := d[..];
      ReadOne(before, bytes, i, offset, j);
      d[offset] := Or(d[offset], s[i] * Scale(shift / 8));
      ClearNext(before, offset, j, |bytes| - i, d[offset]);
      assert d[..] == before[offset := d[offset]];
    }
  }
}
