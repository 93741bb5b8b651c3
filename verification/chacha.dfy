/** The ChaCha context and its block loop, over arrays and possibly in place. */
module ChaCha {
  import opened Primitives
  import opened Words
  import opened ChaChaSpec

  method TwoRounds(ghost f: RoundFn, x: State) returns (y: State)
    requires IsDoubleRound(f)
    ensures y == f(x)
  {
    y := DoubleRound(x);
  }

  /** Twenty rounds on a copy of the state, two at a time. */
  method RunRounds(ghost f: RoundFn, j: State) returns (x: State)
    requires IsDoubleRound(f)
    ensures x == Iterate(f, j, 10)
  {
    x := j;
    var i := 20;
    ghost var left := 10;
    while i > 0
      invariant 0 <= left <= 10 && i == 2 * left
      invariant Iterate(f, x, left) == Iterate(f, j, 10)
    {
      x := TwoRounds(f, x);
      i, left := i - 2, left - 1;
    }
  }

  /** The first `n` words of the block, exclusive-ored with the input. */
  ghost predicate Mixed(f: RoundFn, j: State, m: seq<octet>, x: State, n: nat)
    requires |m| == 64 && n <= 16
  {
    forall v :: 0 <= v < n ==>
      x[v] == Xor32(BlockWord(f, j, v), Load(m[4 * v], m[4 * v + 1], m[4 * v + 2], m[4 * v + 3]))
  }

  /** All of the input block is read, into words, before anything is written. */
  method MixBlock(ghost f: RoundFn, j: State, m: array<octet>, mo: nat) returns (x: State)
    requires IsDoubleRound(f)
    requires mo + 64 <= m.Length
    ensures Mixed(f, j, m[mo..mo + 64], x, 16)
  {
    var r := RunRounds(f, j);
    x := r;
    ghost var src := m[mo..mo + 64];
    var w := 0;
    while w < 16
      invariant 0 <= w <= 16
      invariant Mixed(f, j, src, x, w)
    {
      x := x[w := Xor32(Add32(r[w], j[w]),
                        Load(m[mo + 4 * w], m[mo + 4 * w + 1], m[mo + 4 * w + 2], m[mo + 4 * w + 3]))];
      w := w + 1;
    }
  }

  /** The bytes of one word of the block, exclusive-ored with the input. */
  lemma WordBytes(f: RoundFn, j: State, m: seq<octet>, x: State, w: nat)
    requires |m| == 64 && w < 16 && Mixed(f, j, m, x, 16)
    ensures forall k :: 0 <= k < 4 ==> Store(x[w], k) == XorByte(m[4 * w + k], BlockBytes(f, j)[4 * w + k])
  {
    var b := BlockWord(f, j, w);
    StoreXor(b, m[4 * w], m[4 * w + 1], m[4 * w + 2], m[4 * w + 3]);
    forall k | 0 <= k < 4
      ensures Store(x[w], k) == XorByte(m[4 * w + k], BlockBytes(f, j)[4 * w + k])
    {
      assert (4 * w + k) / 4 == w && (4 * w + k) % 4 == k;
      XorByteSwaps(Store(b, k), m[4 * w + k]);
    }
  }

  lemma {:induction false} XorSwaps(a: nat, b: nat)
    ensures Xor(a, b) == Xor(b, a)
  {
    if a + b > 0 {
      XorSwaps(a / 2, b / 2);
    }
  }

  lemma XorByteSwaps(a: octet, b: octet)
    ensures XorByte(a, b) == XorByte(b, a)
  {
    XorSwaps(a, b);
  }

  method StoreBlock(ghost f: RoundFn, ghost j: State, ghost m: seq<octet>, x: State, c: array<octet>, co: nat)
    requires co + 64 <= c.Length && |m| == 64 && Mixed(f, j, m, x, 16)
    modifies c
    ensures c[co..co + 64] == XorSeq(m, BlockBytes(f, j))
    ensures c[..co] == old(c[..co]) && c[co + 64..] == old(c[co + 64..])
  {
    ghost var out := XorSeq(m, BlockBytes(f, j));
    AllWords(f, j, m, x);
    StoreWords(x, c, co, out);
  }

  lemma AllWords(f: RoundFn, j: State, m: seq<octet>, x: State)
    requires |m| == 64 && Mixed(f, j, m, x, 16)
    ensures forall w :: 0 <= w < 16 ==> WordOf(XorSeq(m, BlockBytes(f, j)), w) == WordStored(x[w])
  {
    forall w | 0 <= w < 16
      ensures WordOf(XorSeq(m, BlockBytes(f, j)), w) == WordStored(x[w])
    {
      OneWord(f, j, m, x, w);
    }
  }

  lemma OneWord(f: RoundFn, j: State, m: seq<octet>, x: State, w: nat)
    requires |m| == 64 && w < 16 && Mixed(f, j, m, x, 16)
    ensures WordOf(XorSeq(m, BlockBytes(f, j)), w) == WordStored(x[w])
  {
    WordBytes(f, j, m, x, w);
    BytesOfWord(m, BlockBytes(f, j), x[w], w);
  }

  lemma BytesOfWord(m: seq<octet>, key: seq<octet>, x: u32, w: nat)
    requires |m| == |key| && 4 * w + 4 <= |m|
    requires forall k :: 0 <= k < 4 ==> Store(x, k) == XorByte(m[4 * w + k], key[4 * w + k])
    ensures WordOf(XorSeq(m, key), w) == WordStored(x)
  {
    var a, b := WordOf(XorSeq(m, key), w), WordStored(x);
    assert a[0] == XorByte(m[4 * w + 0], key[4 * w + 0]) == b[0];
    assert a[1] == XorByte(m[4 * w + 1], key[4 * w + 1]) == b[1];
    assert a[2] == XorByte(m[4 * w + 2], key[4 * w + 2]) == b[2];
    assert a[3] == XorByte(m[4 * w + 3], key[4 * w + 3]) == b[3];
  }

  function WordStored(w: u32): seq<octet> {
    [Store(w, 0), Store(w, 1), Store(w, 2), Store(w, 3)]
  }

  function WordOf(s: seq<octet>, w: nat): seq<octet>
    requires 4 * w + 4 <= |s|
  {
    s[4 * w..4 * w + 4]
  }

  method StoreWords(x: State, c: array<octet>, co: nat, ghost out: seq<octet>)
    requires co + 64 <= c.Length && |out| == 64
    requires forall w :: 0 <= w < 16 ==> WordOf(out, w) == WordStored(x[w])
    modifies c
    ensures c[co..co + 64] == out
    ensures c[..co] == old(c[..co]) && c[co + 64..] == old(c[co + 64..])
  {
    var w := 0;
    while w < 16
      invariant 0 <= w <= 16
      invariant c[co..co + 4 * w] == out[..4 * w]
      invariant c[..co] == old(c[..co]) && c[co + 64..] == old(c[co + 64..])
      modifies c
    {
      StoreWord(x[w], c, co + 4 * w);
      Joined(out, 0, 4 * w, 4 * w + 4);
      Joined(c[..], co, co + 4 * w, co + 4 * w + 4);
      w := w + 1;
    }
    assert out[..64] == out;
  }

  lemma Joined(s: seq<octet>, a: nat, b: nat, c: nat)
    requires a <= b <= c <= |s|
    ensures s[a..c] == s[a..b] + s[b..c]
  {
  }

  method StoreWord(w: u32, c: array<octet>, p: nat)
    requires p + 4 <= c.Length
    modifies c
    ensures c[p..p + 4] == WordStored(w)
    ensures c[..p] == old(c[..p]) && c[p + 4..] == old(c[p + 4..])
  {
    c[p] := Store(w, 0);
    c[p + 1] := Store(w, 1);
    c[p + 2] := Store(w, 2);
    c[p + 3] := Store(w, 3);
  }

  /** One block, where the input and the output may be the same bytes. */
  method CryptBlock(ghost f: RoundFn, ghost blk: BlockFn, j: State, m: array<octet>, mo: nat, c: array<octet>, co: nat)
    requires IsDoubleRound(f) && IsBlock(blk, f)
    requires mo + 64 <= m.Length && co + 64 <= c.Length
    requires m == c ==> mo == co
    modifies c
    ensures c[co..co + 64] == XorSeq(old(m[mo..mo + 64]), blk(j))
    ensures c[..co] == old(c[..co]) && c[co + 64..] == old(c[co + 64..])
    ensures m[mo + 64..] == old(m[mo + 64..])
  {
    var x := MixBlock(f, j, m, mo);
    assert blk(j) == BlockBytes(f, j);
    StoreBlock(f, j, m[mo..mo + 64], x, c, co);
  }

  /** The cipher's own block function. */
  function ChaChaBlock(j: State): Block {
    BlockBytes(DoubleRound, j)
  }

  lemma CipherFunctions()
    ensures IsDoubleRound(DoubleRound) && IsBlock(ChaChaBlock, DoubleRound)
  {
  }

  class Context {
    const input: array<u32>

    ghost predicate Valid()
    {
      input.Length == 16
    }

    ghost function View(): State
      reads input
      requires Valid()
    {
      input[..]
    }

    constructor ()
      ensures Valid() && fresh(input)
    {
      input := new u32[16](_ => 0);
    }

    /** Encrypts `bytes` bytes of `m` into `c`; the two are apart, or the same place. */
    method EncryptWith(ghost f: RoundFn, ghost blk: BlockFn,
                       m: array<octet>, mo: nat, c: array<octet>, co: nat, bytes: u32)
      requires Valid() && IsDoubleRound(f) && IsBlock(blk, f)
      requires mo + bytes <= m.Length && co + bytes <= c.Length
      requires m == c ==> mo == co
      requires input as object != m && input as object != c
      modifies input, c
      ensures View() == Advance(old(View()), Blocks(bytes))
      ensures c[co..co + bytes] == Crypt(blk, old(View()), old(m[mo..mo + bytes]))
      ensures c[..co] == old(c[..co]) && c[co + bytes..] == old(c[co + bytes..])
    {
      if bytes == 0 {
        return;
      }
      ghost var st, src := View(), m[mo..mo + bytes];
      Start(blk, st, src, m[..], mo, c[..], co);
      var j, n := EncryptBlocks(f, blk, input[..], src, m, mo, c, co, bytes);
      EncryptEnd(f, blk, st, src, j, n, m, mo, c, co, bytes, old(c[..]));
      WriteCounter(Next(j), st, n + 1);
    }

    /** The two counter words go back to the context. */
    method WriteCounter(j: State, ghost st: State, ghost n: nat)
      requires Valid() && View() == st && j == Advance(st, n)
      modifies input
      ensures View() == j
    {
      input[12] := j[12];
      input[13] := j[13];
      CounterAdvances(st, n);
    }

    /** The first `done` bytes are encrypted; the rest of both arrays is as it was. */
    ghost predicate Sofar(blk: BlockFn, st: State, src: seq<octet>, m: seq<octet>, mo: nat,
                          c: seq<octet>, co: nat, c0: seq<octet>, done: nat) {
      && done <= |src| && mo + |src| <= |m| && co + |src| <= |c| == |c0|
      && c[co..co + done] == Crypt(blk, st, src[..done])
      && c[..co] == c0[..co] && c[co + done..] == c0[co + done..]
      && m[mo + done..mo + |src|] == src[done..]
    }

    lemma Start(blk: BlockFn, st: State, src: seq<octet>, m: seq<octet>, mo: nat, c: seq<octet>, co: nat)
      requires mo + |src| <= |m| && co + |src| <= |c| && src == m[mo..mo + |src|]
      ensures Sofar(blk, st, src, m, mo, c, co, c, 0)
    {
      assert src[..0] == [] && src[0..] == src;
    }

    /** All blocks but the last, which may be short or full. */
    method EncryptBlocks(ghost f: RoundFn, ghost blk: BlockFn, st: State, ghost src: seq<octet>,
                         m: array<octet>, mo: nat, c: array<octet>, co: nat, bytes: nat)
      returns (j: State, n: nat)
      requires IsDoubleRound(f) && IsBlock(blk, f)
      requires 0 < bytes == |src|
      requires m == c ==> mo == co
      requires Sofar(blk, st, src, m[..], mo, c[..], co, c[..], 0)
      modifies c
      ensures 64 * n < bytes <= 64 * n + 64 && j == Advance(st, n)
      ensures Sofar(blk, st, src, m[..], mo, c[..], co, old(c[..]), 64 * n)
    {
      j := st;
      n := 0;
      while bytes - 64 * n > 64
        invariant 64 * n < bytes && j == Advance(st, n)
        invariant Sofar(blk, st, src, m[..], mo, c[..], co, old(c[..]), 64 * n)
        modifies c
        decreases bytes - 64 * n
      {
        EncryptOne(f, blk, st, src, j, n, m, mo, c, co, old(c[..]));
        j := Next(j);
        n := n + 1;
      }
    }

    /** One turn of the block loop. */
    method EncryptOne(ghost f: RoundFn, ghost blk: BlockFn, ghost st: State, ghost src: seq<octet>, j: State, n: nat,
                      m: array<octet>, mo: nat, c: array<octet>, co: nat, ghost c0: seq<octet>)
      requires IsDoubleRound(f) && IsBlock(blk, f) && j == Advance(st, n)
      requires 64 * n + 64 <= |src|
      requires m == c ==> mo == co
      requires Sofar(blk, st, src, m[..], mo, c[..], co, c0, 64 * n)
      modifies c
      ensures Sofar(blk, st, src, m[..], mo, c[..], co, c0, 64 * n + 64)
    {
      var p, q := mo + 64 * n, co + 64 * n;
      NextSource(m[..], src, mo, 64 * n);
      FullBlock(blk(j));
      ghost var m1, c1 := m[..], c[..];
      CryptBlock(f, blk, j, m, p, c, q);
      OneMore(blk, st, src, m1, m[..], mo, c1, c[..], co, c0, n);
    }

    lemma FullBlock(b: Block)
      ensures b[..64] == b
    {
    }

    lemma NextSource(m: seq<octet>, src: seq<octet>, mo: nat, x: nat)
      requires x + 64 <= |src| && mo + |src| <= |m| && m[mo + x..mo + |src|] == src[x..]
      ensures m[mo + x..mo + x + 64] == src[x..x + 64]
    {
      assert m[mo + x..mo + x + 64] == m[mo + x..mo + |src|][..64];
      assert src[x..x + 64] == src[x..][..64];
    }

    lemma OneMore(blk: BlockFn, st: State, src: seq<octet>, m1: seq<octet>, m: seq<octet>, mo: nat,
                  c1: seq<octet>, c: seq<octet>, co: nat, c0: seq<octet>, n: nat)
      requires Sofar(blk, st, src, m1, mo, c1, co, c0, 64 * n) && 64 * n + 64 <= |src|
      requires |m| == |m1| && |c| == |c1|
      requires var q := co + 64 * n;
               && c[q..q + 64] == XorSeq(src[64 * n..64 * n + 64], blk(Advance(st, n))[..64])
               && c[..q] == c1[..q] && c[q + 64..] == c1[q + 64..]
      requires m[mo + 64 * n + 64..] == m1[mo + 64 * n + 64..]
      ensures Sofar(blk, st, src, m, mo, c, co, c0, 64 * n + 64)
    {
      var q := co + 64 * n;
      SamePrefix(c, c1, q, co);
      ExtendBy(blk, st, src, n, 64, c, co);
      SameSuffix(c1, c0, q, q + 64);
      Middle(m, m1, src, mo, 64 * n, 64 * n + 64);
    }

    lemma SamePrefix(a: seq<octet>, b: seq<octet>, q: nat, lo: nat)
      requires lo <= q <= |a| && q <= |b| && a[..q] == b[..q]
      ensures a[lo..q] == b[lo..q] && a[..lo] == b[..lo]
    {
      assert a[lo..q] == a[..q][lo..] && b[lo..q] == b[..q][lo..];
      assert a[..lo] == a[..q][..lo] && b[..lo] == b[..q][..lo];
    }

    lemma SameSuffix(a: seq<octet>, b: seq<octet>, q: nat, r: nat)
      requires q <= r <= |a| == |b| && a[q..] == b[q..]
      ensures a[r..] == b[r..]
    {
      assert a[r..] == a[q..][r - q..] && b[r..] == b[q..][r - q..];
    }

    /** What is left of the source, after a part of it has been read. */
    lemma Middle(m: seq<octet>, m1: seq<octet>, src: seq<octet>, mo: nat, x: nat, y: nat)
      requires x <= y <= |src| && mo + |src| <= |m| == |m1|
      requires m1[mo + x..mo + |src|] == src[x..] && m[mo + y..] == m1[mo + y..]
      ensures m[mo + y..mo + |src|] == src[y..]
    {
      assert m[mo + y..mo + |src|] == m[mo + y..][..|src| - y];
      assert m1[mo + y..mo + |src|] == m1[mo + y..][..|src| - y];
      assert m1[mo + y..mo + |src|] == m1[mo + x..mo + |src|][y - x..];
      assert src[y..] == src[x..][y - x..];
    }

    /** The last block and what it completes. */
    method EncryptEnd(ghost f: RoundFn, ghost blk: BlockFn, ghost st: State, ghost src: seq<octet>, j: State, n: nat,
                      m: array<octet>, mo: nat, c: array<octet>, co: nat, bytes: nat, ghost c0: seq<octet>)
      requires IsDoubleRound(f) && IsBlock(blk, f) && j == Advance(st, n)
      requires 64 * n < bytes <= 64 * n + 64 && bytes == |src|
      requires m == c ==> mo == co
      requires Sofar(blk, st, src, m[..], mo, c[..], co, c0, 64 * n)
      modifies c
      ensures c[co..co + bytes] == Crypt(blk, st, src)
      ensures c[..co] == c0[..co] && c[co + bytes..] == c0[co + bytes..]
    {
      var q := co + 64 * n;
      ghost var m1, c1 := m[..], c[..];
      LastSource(blk, st, src, m1, mo, c1, co, c0, 64 * n);
      EncryptLast(f, blk, j, m, mo + 64 * n, c, q, bytes - 64 * n, src[64 * n..]);
      EndIs(blk, st, src, n, m1, mo, c[..], c1, c0, co);
    }

    lemma EndIs(blk: BlockFn, st: State, src: seq<octet>, n: nat, m1: seq<octet>, mo: nat,
                c: seq<octet>, c1: seq<octet>, c0: seq<octet>, co: nat)
      requires Sofar(blk, st, src, m1, mo, c1, co, c0, 64 * n) && |src| <= 64 * n + 64 && |c| == |c1|
      requires var q := co + 64 * n;
               && c[q..co + |src|] == XorSeq(src[64 * n..], blk(Advance(st, n))[..|src| - 64 * n])
               && c[..q] == c1[..q] && c[co + |src|..] == c1[co + |src|..]
      ensures c[co..co + |src|] == Crypt(blk, st, src)
      ensures c[..co] == c0[..co] && c[co + |src|..] == c0[co + |src|..]
    {
      var q, k := co + 64 * n, |src| - 64 * n;
      SamePrefix(c, c1, q, co);
      SameSuffix(c1, c0, q, co + |src|);
      assert src[64 * n..64 * n + k] == src[64 * n..] && src[..64 * n + k] == src;
      ExtendBy(blk, st, src, n, k, c, co);
    }

    lemma LastSource(blk: BlockFn, st: State, src: seq<octet>, m: seq<octet>, mo: nat,
                     c: seq<octet>, co: nat, c0: seq<octet>, x: nat)
      requires Sofar(blk, st, src, m, mo, c, co, c0, x)
      ensures m[mo + x..mo + x + (|src| - x)] == src[x..]
    {
    }

    lemma PrefixGrows(s: seq<octet>, x: nat, k: nat)
      requires x + k <= |s|
      ensures s[..x] + s[x..x + k] == s[..x + k]
    {
    }

    lemma ExtendBy(blk: BlockFn, st: State, src: seq<octet>, n: nat, k: nat, c: seq<octet>, co: nat)
      requires 64 * n + k <= |src| && k <= 64 && co + 64 * n + k <= |c|
      requires c[co..co + 64 * n] == Crypt(blk, st, src[..64 * n])
      requires c[co + 64 * n..co + 64 * n + k] == XorSeq(src[64 * n..64 * n + k], blk(Advance(st, n))[..k])
      ensures c[co..co + 64 * n + k] == Crypt(blk, st, src[..64 * n + k])
    {
      ExtendSource(blk, st, src, n, k);
      Joined(c, co, co + 64 * n, co + 64 * n + k);
    }

    lemma ExtendSource(blk: BlockFn, st: State, src: seq<octet>, n: nat, k: nat)
      requires 64 * n + k <= |src| && k <= 64
      ensures Crypt(blk, st, src[..64 * n + k])
              == Crypt(blk, st, src[..64 * n]) + XorSeq(src[64 * n..64 * n + k], blk(Advance(st, n))[..k])
    {
      PrefixGrows(src, 64 * n, k);
      CryptExtend(blk, st, src[..64 * n], src[64 * n..64 * n + k], n);
    }

    /** The last block, through a temporary buffer when it is short. */
    method EncryptLast(ghost f: RoundFn, ghost blk: BlockFn, j: State,
                       m: array<octet>, mo: nat, c: array<octet>, co: nat, left: nat, ghost part: seq<octet>)
      requires IsDoubleRound(f) && IsBlock(blk, f)
      requires 0 < left <= 64 && mo + left <= m.Length && co + left <= c.Length
      requires m[mo..mo + left] == part
      requires m == c ==> mo == co
      modifies c
      ensures c[co..co + left] == XorSeq(part, blk(j)[..left])
      ensures c[..co] == old(c[..co]) && c[co + left..] == old(c[co + left..])
    {
      if left < 64 {
        ghost var src := m[mo..mo + left];
        var tmp := new octet[64](_ => 0);
        CopyBytes(m, mo, tmp, 0, left);
        ghost var padded := tmp[0..64];
        assert padded[..left] == tmp[0..left] == src;
        CryptBlock(f, blk, j, tmp, 0, tmp, 0);
        CopyBytes(tmp, 0, c, co, left);
        XorSeqPrefix(padded, blk(j), left);
        assert tmp[0..left] == tmp[0..64][..left];
      } else {
        assert blk(j)[..64] == blk(j);
        CryptBlock(f, blk, j, m, mo, c, co);
      }
    }

    static method CopyBytes(m: array<octet>, mo: nat, c: array<octet>, co: nat, n: nat)
      requires mo + n <= m.Length && co + n <= c.Length && m != c
      modifies c
      ensures c[co..co + n] == m[mo..mo + n]
      ensures c[..co] == old(c[..co]) && c[co + n..] == old(c[co + n..])
    {
      var i := 0;
      while i < n
        invariant 0 <= i <= n
        invariant c[co..co + i] == m[mo..mo + i]
        invariant c[..co] == old(c[..co]) && c[co + n..] == old(c[co + n..])
        modifies c
      {
        c[co + i] := m[mo + i];
        i := i + 1;
      }
    }

    /** chacha_encrypt_bytes. */
    method EncryptBytes(m: array<octet>, mo: nat, c: array<octet>, co: nat, bytes: u32)
      requires Valid()
      requires mo + bytes <= m.Length && co + bytes <= c.Length
      requires m == c ==> mo == co
      requires input as object != m && input as object != c
      modifies input, c
      ensures View() == Advance(old(View()), Blocks(bytes))
      ensures c[co..co + bytes] == Crypt(ChaChaBlock, old(View()), old(m[mo..mo + bytes]))
      ensures c[..co] == old(c[..co]) && c[co + bytes..] == old(c[co + bytes..])
    {
      CipherFunctions();
      EncryptWith(DoubleRound, ChaChaBlock, m, mo, c, co, bytes);
    }
  }
}
