/**
 Block cipher modes over an abstract block cipher: chaining, and a counter kept as big-endian
 bytes.  The cipher is any pair of functions on 16-byte blocks.
 */
module AesModesSpec {
  import opened Primitives
  import opened Words

  type Block = b: seq<byte> | |b| == 16 witness seq(16, _ => 0)
  type Cipher = Block -> Block

  ghost predicate Undoes(dec: Cipher, enc: Cipher) {
    forall b: Block :: dec(enc(b)) == b
  }

  function XorBlock(a: Block, b: Block): (c: Block) {
    seq(16, i requires 0 <= i < 16 => a[i] ^ b[i])
  }

  lemma XorTwice(a: Block, b: Block)
    ensures XorBlock(XorBlock(a, b), b) == a
  {
    assert forall i :: 0 <= i < 16 ==> (a[i] ^ b[i]) ^ b[i] == a[i];
  }

  // ----- chaining -----

  /** A text is a whole number of blocks. */
  type Text = seq<Block>

  function CbcEncrypt(enc: Cipher, iv: Block, p: Text): (c: Text)
    ensures |c| == |p|
  {
    if p == [] then []
    else
      var c := CbcEncrypt(enc, iv, p[..|p| - 1]);
      c + [enc(XorBlock(p[|p| - 1], Chained(iv, c)))]
  }

  function CbcDecrypt(dec: Cipher, iv: Block, c: Text): (p: Text)
    ensures |p| == |c|
  {
    if c == [] then []
    else CbcDecrypt(dec, iv, c[..|c| - 1]) + [XorBlock(dec(c[|c| - 1]), Chained(iv, c[..|c| - 1]))]
  }

  /** The vector for what follows a ciphertext. */
  function Chained(iv: Block, c: Text): Block {
    if c == [] then iv else c[|c| - 1]
  }

  lemma {:induction false} CbcRoundTrip(enc: Cipher, dec: Cipher, iv: Block, p: Text)
    requires Undoes(dec, enc)
    ensures CbcDecrypt(dec, iv, CbcEncrypt(enc, iv, p)) == p
  {
    if p != [] {
      var q, last := p[..|p| - 1], p[|p| - 1];
      CbcRoundTrip(enc, dec, iv, q);
      var d := CbcEncrypt(enc, iv, q);
      var x := XorBlock(last, Chained(iv, d));
      var c := CbcEncrypt(enc, iv, p);
      assert c == d + [enc(x)];
      assert c[..|c| - 1] == d && dec(enc(x)) == x;
      XorTwice(last, Chained(iv, d));
      assert p == q + [last];
    }
  }

  /** Every ciphertext is the encryption of what it decrypts to. */
  lemma {:induction false} CbcRoundTripBack(enc: Cipher, dec: Cipher, iv: Block, c: Text)
    requires Undoes(enc, dec)
    ensures CbcEncrypt(enc, iv, CbcDecrypt(dec, iv, c)) == c
  {
    if c != [] {
      var d, last := c[..|c| - 1], c[|c| - 1];
      CbcRoundTripBack(enc, dec, iv, d);
      var q := CbcDecrypt(dec, iv, d);
      var p := CbcDecrypt(dec, iv, c);
      assert p == q + [XorBlock(dec(last), Chained(iv, d))];
      assert p[..|p| - 1] == q;
      XorTwice(dec(last), Chained(iv, d));
      assert enc(dec(last)) == last;
      assert c == d + [last];
    }
  }

  lemma ChainedConcat(iv: Block, c: Text, d: Text)
    ensures Chained(iv, c + d) == Chained(Chained(iv, c), d)
  {
    assert d == [] ==> c + d == c;
  }

  /** A second call that starts from the vector the first left continues the same stream. */
  lemma {:induction false} CbcEncryptChains(enc: Cipher, iv: Block, p: Text, q: Text)
    ensures var c := CbcEncrypt(enc, iv, p);
            CbcEncrypt(enc, iv, p + q) == c + CbcEncrypt(enc, Chained(iv, c), q)
    decreases |q|
  {
    var c := CbcEncrypt(enc, iv, p);
    var v := Chained(iv, c);
    if q == [] {
      assert p + q == p && c + [] == c;
    } else {
      var init, last := q[..|q| - 1], q[|q| - 1];
      var d := CbcEncrypt(enc, v, init);
      CbcEncryptChains(enc, iv, p, init);
      ChainedConcat(iv, c, d);
      assert q == init + [last];
      Regroup(p, init, [last]);
      CbcEncryptStep(enc, iv, p + init, last);
      CbcEncryptStep(enc, v, init, last);
      Regroup(c, d, [enc(XorBlock(last, Chained(v, d)))]);
    }
  }

  lemma CbcEncryptStep(enc: Cipher, iv: Block, p: Text, last: Block)
    ensures var c := CbcEncrypt(enc, iv, p);
            CbcEncrypt(enc, iv, p + [last]) == c + [enc(XorBlock(last, Chained(iv, c)))]
  {
    assert (p + [last])[..|p|] == p;
  }

  lemma {:induction false} CbcDecryptChains(dec: Cipher, iv: Block, c: Text, d: Text)
    ensures CbcDecrypt(dec, iv, c + d) == CbcDecrypt(dec, iv, c) + CbcDecrypt(dec, Chained(iv, c), d)
    decreases |d|
  {
    var p, v := CbcDecrypt(dec, iv, c), Chained(iv, c);
    if d == [] {
      assert c + d == c && p + [] == p;
    } else {
      var init, last := d[..|d| - 1], d[|d| - 1];
      CbcDecryptChains(dec, iv, c, init);
      ChainedConcat(iv, c, init);
      assert d == init + [last];
      Regroup(c, init, [last]);
      CbcDecryptStep(dec, iv, c + init, last);
      CbcDecryptStep(dec, v, init, last);
      Regroup(p, CbcDecrypt(dec, v, init), [XorBlock(dec(last), Chained(v, init))]);
    }
  }

  lemma CbcDecryptStep(dec: Cipher, iv: Block, c: Text, last: Block)
    ensures CbcDecrypt(dec, iv, c + [last]) == CbcDecrypt(dec, iv, c) + [XorBlock(dec(last), Chained(iv, c))]
  {
    assert (c + [last])[..|c|] == c;
  }

  /** The ciphertext block before block `i`, or the vector. */
  function Before(iv: Block, c: Text, i: nat): Block
    requires i < |c|
  {
    if i == 0 then iv else c[i - 1]
  }

  /** Each ciphertext block is the encryption of the exclusive or of its plaintext block and the one before it. */
  lemma {:induction false} CbcEncryptsBytes(enc: Cipher, iv: Block, p: Text, i: nat) returns (x: Block)
    requires i < |p|
    ensures var c := CbcEncrypt(enc, iv, p);
            c[i] == enc(x) && forall j :: 0 <= j < 16 ==> x[j] == p[i][j] ^ Before(iv, c, i)[j]
    decreases |p|
  {
    var q := p[..|p| - 1];
    var d := CbcEncrypt(enc, iv, q);
    if i < |q| {
      x := CbcEncryptsBytes(enc, iv, q, i);
    } else {
      x := XorBlock(p[i], Chained(iv, d));
    }
  }

  lemma {:induction false} CbcDecryptAt(dec: Cipher, iv: Block, c: Text, k: nat)
    requires k < |c|
    ensures CbcDecrypt(dec, iv, c)[k] == XorBlock(dec(c[k]), if k == 0 then iv else c[k - 1])
    decreases |c|
  {
    if k < |c| - 1 {
      CbcDecryptAt(dec, iv, c[..|c| - 1], k);
    }
  }

  /** Each plaintext block is the exclusive or of its decrypted ciphertext block and the ciphertext block before it. */
  lemma CbcDecryptsBytes(dec: Cipher, iv: Block, c: Text, i: nat)
    requires i < |c|
    ensures forall j :: 0 <= j < 16 ==> CbcDecrypt(dec, iv, c)[i][j] == dec(c[i])[j] ^ Before(iv, c, i)[j]
  {
    CbcDecryptAt(dec, iv, c, i);
  }

  // ----- the counter -----

  function Value(s: seq<byte>): nat {
    if s == [] then 0 else 256 * Value(s[..|s| - 1]) + s[|s| - 1] as nat
  }

  /** Adds one to the last byte, and to the byte before it when that one wraps to zero. */
  function Inc(s: seq<byte>): (t: seq<byte>)
    ensures |t| == |s|
  {
    if s == [] then []
    else
      var b := s[|s| - 1] + 1;
      if b != 0 then s[..|s| - 1] + [b] else Inc(s[..|s| - 1]) + [0]
  }

  lemma {:induction false} ValueBound(s: seq<byte>)
    ensures Value(s) < Pow256(|s|)
  {
    if s != [] {
      ValueBound(s[..|s| - 1]);
    }
  }

  lemma ByteAddOne(b: byte)
    ensures b + 1 == 0 <==> b as nat == 255
    ensures b + 1 != 0 ==> (b + 1) as nat == b as nat + 1
  {
  }

  /** Incrementing is addition of one modulo 256 to the number of bytes. */
  lemma {:induction false} IncAddsOne(s: seq<byte>)
    ensures Value(Inc(s)) == (Value(s) + 1) % Pow256(|s|)
  {
    IncWraps(s);
    ValueBound(s);
    NextIsMod(Value(s), Pow256(|s|));
  }

  lemma NextIsMod(v: nat, m: nat)
    requires v < m
    ensures (v + 1) % m == if v + 1 == m then 0 else v + 1
  {
    if v + 1 == m { ModOf(v + 1, m, 1, 0); } else { ModOf(v + 1, m, 0, v + 1); }
  }

  lemma {:induction false} IncWraps(s: seq<byte>)
    ensures Value(Inc(s)) == if Value(s) + 1 == Pow256(|s|) then 0 else Value(s) + 1
  {
    if s != [] {
      var init, b := s[..|s| - 1], s[|s| - 1];
      IncWraps(init);
      ValueBound(init);
      ByteAddOne(b);
      var t := Inc(s);
      assert t[..|t| - 1] == if b + 1 != 0 then init else Inc(init);
    }
  }

  lemma SameDigits(a: nat, x: byte, b: nat, y: byte)
    requires 256 * a + x as nat == 256 * b + y as nat
    ensures a == b && x == y
  {
  }

  lemma {:induction false} ValueInjective(s: seq<byte>, t: seq<byte>)
    requires |s| == |t| && Value(s) == Value(t)
    ensures s == t
  {
    if s != [] {
      var a, b, x, y := s[..|s| - 1], t[..|t| - 1], s[|s| - 1], t[|t| - 1];
      SameDigits(Value(a), x, Value(b), y);
      ValueInjective(a, b);
      assert s == a + [x] && t == b + [y];
    }
  }

  /** The counter after `k` increments. */
  function Counted(s: Block, k: nat): Block {
    if k == 0 then s else Inc(Counted(s, k - 1))
  }

  lemma {:induction false} CountedMod(s: Block, k: nat, m: nat)
    requires m > 0 && Value(s) < m
    requires forall t: Block :: Value(Inc(t)) == (Value(t) + 1) % m
    ensures Value(Counted(s, k)) == (Value(s) + k) % m
  {
    if k == 0 {
      ModOf(Value(s), m, 0, Value(s));
    } else {
      CountedMod(s, k - 1, m);
      var t := Counted(s, k - 1);
      ModStep(Value(s) + (k - 1), m, Value(t), Value(Inc(t)));
    }
  }

  /** The counter after `k` increments is `k` more, modulo 2^128. */
  lemma CountedValue(s: Block, k: nat)
    ensures Value(Counted(s, k)) == (Value(s) + k) % Pow256(|s|)
  {
    ValueBound(s);
    forall t: Block
      ensures Value(Inc(t)) == (Value(t) + 1) % Pow256(|s|)
    {
      IncAddsOne(t);
    }
    CountedMod(s, k, Pow256(|s|));
  }

  lemma ModStep(a: nat, m: nat, x: nat, y: nat)
    requires m > 0 && x == a % m && y == (x + 1) % m
    ensures y == (a + 1) % m
  {
    ModNext(a, m);
  }

  lemma ModNext(a: nat, m: nat)
    requires m > 0
    ensures (a % m + 1) % m == (a + 1) % m
  {
    var q, r := a / m, a % m;
    NextIsMod(r, m);
    if r + 1 == m { Carry(a, m, q, r); ModOf(a + 1, m, q + 1, 0); } else { ModOf(a + 1, m, q, r + 1); }
  }

  lemma Carry(a: nat, m: nat, q: nat, r: nat)
    requires a == m * q + r && r + 1 == m
    ensures a + 1 == m * (q + 1)
  {
  }

  lemma {:induction false} CountedAdds(s: Block, j: nat, k: nat)
    ensures Counted(Counted(s, j), k) == Counted(s, j + k)
  {
    if k > 0 {
      CountedAdds(s, j, k - 1);
    }
  }

  /** Two positions use the same counter block exactly when they are a multiple of 2^128 apart. */
  lemma CounterReuseIff(s: Block, j: nat, k: nat)
    ensures Counted(s, j) == Counted(s, k) <==> (Value(s) + j) % Pow256(|s|) == (Value(s) + k) % Pow256(|s|)
  {
    CountedValue(s, j);
    CountedValue(s, k);
    if Value(Counted(s, j)) == Value(Counted(s, k)) {
      ValueInjective(Counted(s, j), Counted(s, k));
    }
  }

  // ----- counter mode -----

  /** Byte `i` of the key stream that starts at counter `s`: sixteen bytes come from each counter. */
  function KeyByte(enc: Cipher, s: Block, i: nat): byte
    decreases i
  {
    if i < 16 then enc(s)[i] else KeyByte(enc, Inc(s), i - 16)
  }

  lemma {:induction false} KeyAt(enc: Cipher, s: Block, i: nat, q: nat, n: nat)
    requires i == 16 * q + n && n < 16
    ensures KeyByte(enc, s, i) == enc(Counted(s, q))[n]
    decreases q
  {
    if q > 0 {
      KeyAt(enc, Inc(s), i - 16, q - 1, n);
      CountedAdds(s, 1, q - 1);
    }
  }

  /** After whole blocks the stream goes on as the one that starts at the counter then reached. */
  lemma {:induction false} KeySplits(enc: Cipher, s: Block, blocks: nat, i: nat)
    ensures KeyByte(enc, s, 16 * blocks + i) == KeyByte(enc, Counted(s, blocks), i)
    decreases blocks
  {
    if blocks > 0 {
      KeySplits(enc, Inc(s), blocks - 1, i);
      CountedAdds(s, 1, blocks - 1);
    }
  }

  function KeyOf(enc: Cipher, s: Block): nat -> byte {
    (i: nat) => KeyByte(enc, s, i)
  }

  /** A text exclusive-ored with a stream of key bytes. */
  function XorWith(key: nat -> byte, m: seq<byte>): (c: seq<byte>)
    ensures |c| == |m|
  {
    if m == [] then [] else XorWith(key, m[..|m| - 1]) + [m[|m| - 1] ^ key(|m| - 1)]
  }

  function Ctr(enc: Cipher, s: Block, m: seq<byte>): (c: seq<byte>)
    ensures |c| == |m|
  {
    XorWith(KeyOf(enc, s), m)
  }

  /** The number of blocks a call uses up, a started one included. */
  function Used(n: nat): nat {
    (n + 15) / 16
  }

  lemma UsedOf(i: nat, q: nat, n: nat)
    requires i == 16 * q + n && n < 16
    ensures Used(i) == if n == 0 then q else q + 1
  {
  }

  lemma {:induction false} XorWithAt(key: nat -> byte, m: seq<byte>, i: nat)
    requires i < |m|
    ensures XorWith(key, m)[i] == m[i] ^ key(i)
    decreases |m|
  {
    if i < |m| - 1 {
      XorWithAt(key, m[..|m| - 1], i);
    }
  }

  lemma XorWithIs(key: nat -> byte, m: seq<byte>, c: seq<byte>)
    requires |c| == |m| && forall i :: 0 <= i < |m| ==> c[i] == m[i] ^ key(i)
    ensures c == XorWith(key, m)
  {
    forall i | 0 <= i < |m|
      ensures c[i] == XorWith(key, m)[i]
    {
      XorWithAt(key, m, i);
    }
  }

  lemma XorWithTwice(key: nat -> byte, m: seq<byte>)
    ensures XorWith(key, XorWith(key, m)) == m
  {
    var c := XorWith(key, m);
    forall i | 0 <= i < |m|
      ensures XorWith(key, c)[i] == m[i]
    {
      XorWithAt(key, m, i);
      XorWithAt(key, c, i);
      XorByteTwice(m[i], key(i));
    }
  }

  lemma XorByteTwice(x: byte, k: byte)
    ensures (x ^ k) ^ k == x
  {
  }

  lemma XorWithStep(key: nat -> byte, m: seq<byte>, b: byte, k: byte)
    requires k == key(|m|)
    ensures XorWith(key, m + [b]) == XorWith(key, m) + [b ^ k]
  {
    assert (m + [b])[..|m|] == m;
  }

  lemma {:induction false} XorWithConcat(key: nat -> byte, next: nat -> byte, m: seq<byte>, n: seq<byte>)
    requires forall i: nat {:trigger next(i)} :: key(|m| + i) == next(i)
    ensures XorWith(key, m + n) == XorWith(key, m) + XorWith(next, n)
    decreases |n|
  {
    if n == [] {
      assert m + n == m;
    } else {
      var init, last, k := n[..|n| - 1], n[|n| - 1], next(|n| - 1);
      XorWithConcat(key, next, m, init);
      assert n == init + [last];
      Regroup(m, init, [last]);
      XorWithStep(key, m + init, last, k);
      XorWithStep(next, init, last, k);
      Regroup(XorWith(key, m), XorWith(next, init), [last ^ k]);
    }
  }

  /** Byte `16 q + n` is exclusive-ored with byte `n` of the encryption of the counter plus `q`, modulo 2^128. */
  lemma CtrAt(enc: Cipher, s: Block, m: seq<byte>, q: nat, n: nat, t: Block)
    requires 16 * q + n < |m| && n < 16 && Value(t) == (Value(s) + q) % Pow256(|s|)
    ensures Ctr(enc, s, m)[16 * q + n] == m[16 * q + n] ^ enc(t)[n]
  {
    XorWithAt(KeyOf(enc, s), m, 16 * q + n);
    KeyAt(enc, s, 16 * q + n, q, n);
    CountedIs(s, q, t);
  }

  lemma CountedIs(s: Block, q: nat, t: Block)
    requires Value(t) == (Value(s) + q) % Pow256(|s|)
    ensures t == Counted(s, q)
  {
    CountedValue(s, q);
    ValueInjective(t, Counted(s, q));
  }

  /** Running counter mode again from the same counter undoes it. */
  lemma {:induction false} CtrTwice(enc: Cipher, s: Block, m: seq<byte>)
    ensures Ctr(enc, s, Ctr(enc, s, m)) == m
  {
    XorWithTwice(KeyOf(enc, s), m);
  }

  /** Two calls give the bytes of one, when the first ends on a block boundary. */
  lemma CtrSplits(enc: Cipher, s: Block, m: seq<byte>, blocks: nat, n: seq<byte>)
    requires |m| == 16 * blocks
    ensures Ctr(enc, s, m + n) == Ctr(enc, s, m) + Ctr(enc, Counted(s, Used(|m|)), n)
  {
    UsedOf(|m|, blocks, 0);
    var key, next := KeyOf(enc, s), KeyOf(enc, Counted(s, blocks));
    forall i: nat
      ensures key(|m| + i) == next(i)
    {
      KeySplits(enc, s, blocks, i);
    }
    XorWithConcat(key, next, m, n);
  }
}
