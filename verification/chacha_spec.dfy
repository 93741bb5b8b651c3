/**
 The ChaCha stream as a pure function: the block function of section 2.3 of RFC 8439, but
 with a 64-bit block counter in words 12 and 13 and a 64-bit nonce in words 14 and 15.
 */
module ChaChaSpec {
  import opened Primitives
  import opened Words

  type State = s: seq<u32> | |s| == 16 witness seq(16, _ => 0)

  // ----- the rounds -----

  function Xor32(a: u32, b: u32): u32 {
    WordIsPow2();
    XorFits(a, b, 32);
    Xor(a, b)
  }

  function Rotl(v: u32, n: nat): u32
    requires n < 32
  {
    var high: u32 := v * Pow2(n) % WORD_SIZE;
    var low: u32 := Shr(v, 32 - n);
    OrFits(high, low);
    Or(high, low)
  }

  function Shr(v: u32, n: nat): u32 {
    ShrFits(v, Pow2(n));
    v / Pow2(n)
  }

  lemma ShrFits(v: u32, d: nat)
    requires d >= 1
    ensures 0 <= v / d <= v
  {
  }

  datatype Quad = Quad(a: u32, b: u32, c: u32, d: u32)

  function Quarter(a: u32, b: u32, c: u32, d: u32): Quad {
    var a1 := Add32(a, b);
    var d1 := Rotl(Xor32(d, a1), 16);
    var c1 := Add32(c, d1);
    var b1 := Rotl(Xor32(b, c1), 12);
    var a2 := Add32(a1, b1);
    var d2 := Rotl(Xor32(d1, a2), 8);
    var c2 := Add32(c1, d2);
    var b2 := Rotl(Xor32(b1, c2), 7);
    Quad(a2, b2, c2, d2)
  }

  function Put(x: State, a: nat, b: nat, c: nat, d: nat, q: Quad): State
    requires a < 16 && b < 16 && c < 16 && d < 16
  {
    x[a := q.a][b := q.b][c := q.c][d := q.d]
  }

  function QuarterRound(x: State, a: nat, b: nat, c: nat, d: nat): State
    requires a < 16 && b < 16 && c < 16 && d < 16
  {
    Put(x, a, b, c, d, Quarter(x[a], x[b], x[c], x[d]))
  }

  /** One column round and one diagonal round. */
  function DoubleRound(x: State): State {
    var c0 := QuarterRound(x, 0, 4, 8, 12);
    var c1 := QuarterRound(c0, 1, 5, 9, 13);
    var c2 := QuarterRound(c1, 2, 6, 10, 14);
    var c3 := QuarterRound(c2, 3, 7, 11, 15);
    var d0 := QuarterRound(c3, 0, 5, 10, 15);
    var d1 := QuarterRound(d0, 1, 6, 11, 12);
    var d2 := QuarterRound(d1, 2, 7, 8, 13);
    QuarterRound(d2, 3, 4, 9, 14)
  }

  /** The laws of the stream do not depend on what a round computes, so they are stated for any function. */
  type RoundFn = State -> State

  ghost predicate IsDoubleRound(f: RoundFn) {
    forall x {:trigger DoubleRound(x)} :: f(x) == DoubleRound(x)
  }

  function Iterate(f: RoundFn, x: State, n: nat): State
    decreases n
  {
    if n == 0 then x else Iterate(f, f(x), n - 1)
  }

  // ----- little-endian words -----

  /** Four bytes as a word; their bits do not overlap, so the C operator `|` adds them. */
  function Load(b0: octet, b1: octet, b2: octet, b3: octet): u32 {
    b0 + 0x100 * b1 + 0x1_0000 * b2 + 0x100_0000 * b3
  }

  function Store(w: u32, k: nat): octet
    requires k < 4
  {
    if k == 0 then w % 256
    else if k == 1 then w / 0x100 % 256
    else if k == 2 then w / 0x1_0000 % 256
    else w / 0x100_0000 % 256
  }

  function XorByte(a: octet, b: octet): octet {
    WordIsPow2();
    XorFits(a, b, 8);
    Xor(a, b)
  }

  lemma XorParts(low: octet, high: nat, b: octet, rest: nat)
    ensures Xor(low + 0x100 * high, b + 0x100 * rest) == XorByte(low, b) + 0x100 * Xor(high, rest)
  {
    WordIsPow2();
    XorSplit(low, high, b, rest, 8);
  }

  lemma XorLowByte(w: nat, b: octet, rest: nat)
    ensures var v := Xor(w, b + 0x100 * rest);
            v % 256 == XorByte(w % 256, b) && v / 256 == Xor(w / 256, rest)
  {
    var low: octet, high := w % 256, w / 256;
    assert w == low + 0x100 * high;
    XorParts(low, high, b, rest);
    Recompose(Xor(w, b + 0x100 * rest), XorByte(low, b), Xor(high, rest));
  }

  lemma Recompose(v: nat, low: octet, high: nat)
    requires v == low + 0x100 * high
    ensures v % 256 == low && v / 256 == high
  {
  }

  /** A word exclusive-ored with loaded bytes stores each of its bytes exclusive-ored. */
  lemma StoreXor(w: u32, b0: octet, b1: octet, b2: octet, b3: octet)
    ensures var v := Xor32(w, Load(b0, b1, b2, b3));
            && Store(v, 0) == XorByte(Store(w, 0), b0) && Store(v, 1) == XorByte(Store(w, 1), b1)
            && Store(v, 2) == XorByte(Store(w, 2), b2) && Store(v, 3) == XorByte(Store(w, 3), b3)
  {
    var v := Xor32(w, Load(b0, b1, b2, b3));
    var w1, w2, w3 := w / 256, w / 256 / 256, w / 256 / 256 / 256;
    var r3 := b3 + 0x100 * 0;
    var r2 := b2 + 0x100 * r3;
    var r1 := b1 + 0x100 * r2;
    assert Load(b0, b1, b2, b3) == b0 + 0x100 * r1;
    XorLowByte(w, b0, r1);
    XorLowByte(w1, b1, r2);
    XorLowByte(w2, b2, r3);
    XorLowByte(w3, b3, 0);
    ShiftedBytes(w);
    ShiftedBytes(v);
  }

  lemma ShiftedBytes(w: u32)
    ensures Store(w, 1) == w / 256 % 256
    ensures Store(w, 2) == w / 256 / 256 % 256
    ensures Store(w, 3) == w / 256 / 256 / 256 % 256
  {
    assert w / 0x1_0000 == w / 256 / 256;
    assert w / 0x100_0000 == w / 256 / 256 / 256;
  }

  lemma XorByteTwice(a: octet, k: octet)
    ensures XorByte(XorByte(a, k), k) == a
  {
    XorSelf(a, k);
  }

  // ----- the counter -----

  /** The next block's state: word 12 counts, and carries into word 13. */
  function Next(j: State): State {
    var low := Add32(j[12], 1);
    if low == 0 then j[12 := low][13 := Add32(j[13], 1)] else j[12 := low]
  }

  function Advance(j: State, n: nat): State {
    if n == 0 then j else Next(Advance(j, n - 1))
  }

  /** Words 12 and 13 read as one 64-bit number. */
  function Counter(j: State): nat {
    j[13] * WORD_SIZE + j[12]
  }

  const COUNTER_SIZE: nat := 0x1_0000_0000_0000_0000

  lemma NextCounts(j: State)
    ensures Counter(Next(j)) == (Counter(j) + 1) % COUNTER_SIZE
    ensures forall i :: 0 <= i < 16 && i != 12 && i != 13 ==> Next(j)[i] == j[i]
  {
  }

  lemma AddOneMod(a: nat, x: nat)
    requires x == a % COUNTER_SIZE
    ensures (x + 1) % COUNTER_SIZE == (a + 1) % COUNTER_SIZE
  {
  }

  lemma {:induction false} CounterMoves(j: State, n: nat)
    ensures Counter(Advance(j, n)) == (Counter(j) + n) % COUNTER_SIZE
  {
    if n > 0 {
      CounterMoves(j, n - 1);
      NextCounts(Advance(j, n - 1));
      AddOneMod(Counter(j) + (n - 1), Counter(Advance(j, n - 1)));
    }
  }

  lemma {:induction false} OthersStay(j: State, n: nat)
    ensures forall i :: 0 <= i < 16 && i != 12 && i != 13 ==> Advance(j, n)[i] == j[i]
  {
    if n > 0 {
      OthersStay(j, n - 1);
      NextCounts(Advance(j, n - 1));
    }
  }

  /** After `n` blocks the 64-bit counter has moved on by `n`, modulo 2^64, and nothing else has changed. */
  lemma {:induction false} CounterAdvances(j: State, n: nat)
    ensures Counter(Advance(j, n)) == (Counter(j) + n) % COUNTER_SIZE
    ensures forall i :: 0 <= i < 16 && i != 12 && i != 13 ==> Advance(j, n)[i] == j[i]
  {
    CounterMoves(j, n);
    OthersStay(j, n);
  }

  lemma {:induction false} AdvanceAdds(j: State, m: nat, n: nat)
    ensures Advance(Advance(j, m), n) == Advance(j, m + n)
  {
    if n > 0 {
      AdvanceAdds(j, m, n - 1);
    }
  }

  // ----- one block -----

  type Block = b: seq<octet> | |b| == 64 witness seq(64, _ => 0)

  /** Word `i` of the block for state `j`: twenty rounds, then the state added back. */
  function BlockWord(f: RoundFn, j: State, i: nat): u32
    requires i < 16
  {
    Add32(Iterate(f, j, 10)[i], j[i])
  }

  function BlockBytes(f: RoundFn, j: State): Block {
    seq(64, i requires 0 <= i < 64 => Store(BlockWord(f, j, i / 4), i % 4))
  }

  type BlockFn = State -> Block

  ghost predicate IsBlock(blk: BlockFn, f: RoundFn) {
    forall j {:trigger BlockBytes(f, j)} :: blk(j) == BlockBytes(f, j)
  }

  // ----- exclusive or of byte strings -----

  function XorSeq(m: seq<octet>, key: seq<octet>): (c: seq<octet>)
    requires |m| == |key|
    ensures |c| == |m|
  {
    seq(|m|, i requires 0 <= i < |m| => XorByte(m[i], key[i]))
  }

  lemma XorSeqTwice(m: seq<octet>, key: seq<octet>)
    requires |m| == |key|
    ensures XorSeq(XorSeq(m, key), key) == m
  {
    forall i | 0 <= i < |m|
      ensures XorSeq(XorSeq(m, key), key)[i] == m[i]
    {
      XorByteTwice(m[i], key[i]);
    }
  }

  lemma XorSeqConcat(a: seq<octet>, b: seq<octet>, k: seq<octet>, l: seq<octet>)
    requires |a| == |k| && |b| == |l|
    ensures XorSeq(a + b, k + l) == XorSeq(a, k) + XorSeq(b, l)
  {
  }

  lemma XorSeqPrefix(m: seq<octet>, key: seq<octet>, n: nat)
    requires n <= |m| == |key|
    ensures XorSeq(m, key)[..n] == XorSeq(m[..n], key[..n])
  {
  }

  // ----- the stream, for any block function -----

  function KeyByte(blk: BlockFn, j: State, i: nat): octet {
    blk(Advance(j, i / 64))[i % 64]
  }

  function KeyStream(blk: BlockFn, j: State, len: nat): (k: seq<octet>)
    ensures |k| == len
  {
    seq(len, i requires 0 <= i < len => KeyByte(blk, j, i))
  }

  function Crypt(blk: BlockFn, j: State, m: seq<octet>): (c: seq<octet>)
    ensures |c| == |m|
  {
    XorSeq(m, KeyStream(blk, j, |m|))
  }

  /** Number of blocks a call of this length uses. */
  function Blocks(len: nat): nat {
    (len + 63) / 64
  }

  lemma KeyByteShift(blk: BlockFn, j: State, n: nat, i: nat)
    ensures KeyByte(blk, j, 64 * n + i) == KeyByte(blk, Advance(j, n), i)
  {
    assert (64 * n + i) / 64 == n + i / 64 && (64 * n + i) % 64 == i % 64;
    AdvanceAdds(j, n, i / 64);
  }

  /** The key stream goes on, after whole blocks, as the key stream of the advanced state. */
  lemma KeyStreamSplits(blk: BlockFn, j: State, n: nat, len: nat)
    ensures KeyStream(blk, j, 64 * n + len) == KeyStream(blk, j, 64 * n) + KeyStream(blk, Advance(j, n), len)
  {
    var whole, tail := KeyStream(blk, j, 64 * n + len), KeyStream(blk, Advance(j, n), len);
    forall i | 0 <= i < len
      ensures whole[64 * n + i] == tail[i]
    {
      KeyByteShift(blk, j, n, i);
    }
  }

  lemma KeyStreamOfBlock(blk: BlockFn, j: State, len: nat)
    requires len <= 64
    ensures KeyStream(blk, j, len) == blk(j)[..len]
  {
    forall i | 0 <= i < len
      ensures KeyStream(blk, j, len)[i] == blk(j)[i]
    {
      assert i / 64 == 0 && i % 64 == i;
    }
  }

  /** Running the stream again from the same state undoes it. */
  lemma CryptTwice(blk: BlockFn, j: State, m: seq<octet>)
    ensures Crypt(blk, j, Crypt(blk, j, m)) == m
  {
    XorSeqTwice(m, KeyStream(blk, j, |m|));
  }

  /** A call may be split at any block boundary: same bytes, same final state. */
  lemma CryptSplits(blk: BlockFn, j: State, a: seq<octet>, b: seq<octet>)
    requires |a| % 64 == 0
    ensures Crypt(blk, j, a + b) == Crypt(blk, j, a) + Crypt(blk, Advance(j, Blocks(|a|)), b)
    ensures Advance(Advance(j, Blocks(|a|)), Blocks(|b|)) == Advance(j, Blocks(|a + b|))
  {
    var n := |a| / 64;
    KeyStreamSplits(blk, j, n, |b|);
    XorSeqConcat(a, b, KeyStream(blk, j, |a|), KeyStream(blk, Advance(j, n), |b|));
    BlocksAdd(|a|, |b|);
    AdvanceAdds(j, n, Blocks(|b|));
  }

  lemma BlocksAdd(a: nat, b: nat)
    requires a % 64 == 0
    ensures Blocks(a) == a / 64 && Blocks(a + b) == a / 64 + Blocks(b)
  {
  }

  /** One more block, possibly a short one, extends what has been encrypted so far. */
  lemma CryptExtend(blk: BlockFn, j: State, a: seq<octet>, b: seq<octet>, n: nat)
    requires |a| == 64 * n && |b| <= 64
    ensures Crypt(blk, j, a + b) == Crypt(blk, j, a) + XorSeq(b, blk(Advance(j, n))[..|b|])
  {
    BlocksAdd(|a|, |b|);
    CryptSplits(blk, j, a, b);
    KeyStreamOfBlock(blk, Advance(j, n), |b|);
  }

  /** The first bytes of a message are encrypted without looking at the others. */
  lemma {:induction false} CryptPrefix(blk: BlockFn, j: State, m: seq<octet>, n: nat)
    requires n <= |m|
    ensures Crypt(blk, j, m)[..n] == Crypt(blk, j, m[..n])
  {
    XorSeqPrefix(m, KeyStream(blk, j, |m|), n);
    assert KeyStream(blk, j, |m|)[..n] == KeyStream(blk, j, n);
  }
}
