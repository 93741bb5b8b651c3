/** Chaining and counter mode over arrays, in place or not. */
module AesModes {
  import opened Primitives
  import opened AesModesSpec

  // ----- blocks of an array -----

  function BlockAt(s: seq<byte>, i: nat): Block
    requires 16 * i + 16 <= |s|
  {
    s[16 * i..16 * i + 16]
  }

  /** The blocks of a byte string whose length is a multiple of 16. */
  function Parts(s: seq<byte>, n: nat): (t: Text)
    requires 16 * n <= |s|
    ensures |t| == n && forall i :: 0 <= i < n ==> t[i] == BlockAt(s, i)
  {
    seq(n, i requires 0 <= i < n => BlockAt(s, i))
  }

  lemma PartsNext(s: seq<byte>, t: seq<byte>, i: nat, b: Block)
    requires 16 * i + 16 <= |t| && 16 * i <= |s|
    requires s[..16 * i] == t[..16 * i] && t[16 * i..16 * i + 16] == b
    ensures Parts(t, i + 1) == Parts(s, i) + [b]
  {
    forall k | 0 <= k < i
      ensures BlockAt(t, k) == BlockAt(s, k)
    {
      SlicesAgree(s, t, 16 * i, 16 * k, 16 * k + 16);
    }
  }

  lemma SlicesAgree(s: seq<byte>, t: seq<byte>, n: nat, a: nat, b: nat)
    requires n <= |s| && n <= |t| && s[..n] == t[..n] && a <= b <= n
    ensures s[a..b] == t[a..b]
  {
    assert s[..n][a..b] == s[a..b] && t[..n][a..b] == t[a..b];
  }

  lemma TailsAgree(s: seq<byte>, t: seq<byte>, n: nat, a: nat, b: nat)
    requires n <= a <= b <= |s| && |s| == |t| && s[n..] == t[n..]
    ensures s[a..b] == t[a..b] && s[b..] == t[b..]
  {
    assert s[n..][a - n..b - n] == s[a..b] && t[n..][a - n..b - n] == t[a..b];
    assert s[n..][b - n..] == s[b..] && t[n..][b - n..] == t[b..];
  }

  lemma EncryptNext(enc: Cipher, iv: Block, p: Text, i: nat, x: Block)
    requires i < |p| && x == XorBlock(p[i], Chained(iv, CbcEncrypt(enc, iv, p[..i])))
    ensures CbcEncrypt(enc, iv, p[..i + 1]) == CbcEncrypt(enc, iv, p[..i]) + [enc(x)]
  {
    assert p[..i + 1][..i] == p[..i];
  }

  /** Going backward, the blocks before `i` still hold the ciphertext, those from `i` on the plaintext. */
  predicate Front(s: seq<byte>, c: Text, i: nat) {
    i <= |c| && 16 * |c| <= |s| && forall k :: 0 <= k < i ==> BlockAt(s, k) == c[k]
  }

  predicate Back(s: seq<byte>, p: Text, i: nat) {
    16 * |p| <= |s| && forall k :: i <= k < |p| ==> BlockAt(s, k) == p[k]
  }

  lemma BackNext(s: seq<byte>, s': seq<byte>, d: seq<byte>, d': seq<byte>, p: Text, i: nat)
    requires |s| == |s'| && |d| == |d'| && i < |p| && Back(s, p, i) && 16 * i + 16 <= |d|
    requires s' == s || (s == d && s' == d')
    requires d'[16 * i + 16..] == d[16 * i + 16..]
    ensures Back(s', p, i + 1)
  {
    forall k | i < k < |p|
      ensures BlockAt(s', k) == p[k]
    {
      if s' != s { TailsAgree(s', s, 16 * i + 16, 16 * k, 16 * k + 16); }
    }
  }

  lemma FrontBack(s: seq<byte>, s': seq<byte>, d: seq<byte>, d': seq<byte>, c: Text, p: Text, i: nat)
    requires |s| == |s'| && |d| == |d'| && i < |p| == |c|
    requires Front(s, c, i + 1) && Back(d, p, i + 1)
    requires s' == s || (s == d && s' == d')
    requires d'[..16 * i] == d[..16 * i] && d'[16 * i + 16..] == d[16 * i + 16..] && BlockAt(d', i) == p[i]
    ensures Front(s', c, i) && Back(d', p, i)
  {
    forall k | 0 <= k < i
      ensures BlockAt(s', k) == c[k]
    {
      if s' != s { SlicesAgree(s', s, 16 * i, 16 * k, 16 * k + 16); }
    }
    forall k | i < k < |p|
      ensures BlockAt(d', k) == p[k]
    {
      TailsAgree(d', d, 16 * i + 16, 16 * k, 16 * k + 16);
    }
  }

  /** memcpy of one block. */
  method PutBlock(dest: array<byte>, at: nat, b: Block)
    requires at + 16 <= dest.Length
    modifies dest
    ensures dest[at..at + 16] == b
    ensures dest[..at] == old(dest[..at]) && dest[at + 16..] == old(dest[at + 16..])
  {
    for j := 0 to 16
      invariant dest[at..at + j] == b[..j]
      invariant dest[..at] == old(dest[..at]) && dest[at + 16..] == old(dest[at + 16..])
      modifies dest
    {
      dest[at + j] := b[j];
      assert dest[at..at + j + 1] == dest[at..at + j] + [b[j]];
    }
  }

  /** Xors sixteen bytes of another place into sixteen bytes of `dest`. */
  method XorInto(dest: array<byte>, at: nat, src: array<byte>, from: nat)
    requires at + 16 <= dest.Length && from + 16 <= src.Length
    requires dest == src ==> from + 16 <= at
    modifies dest
    ensures dest[at..at + 16] == XorBlock(old(dest[at..at + 16]), old(src[from..from + 16]))
    ensures dest[..at] == old(dest[..at]) && dest[at + 16..] == old(dest[at + 16..])
  {
    var buf := XorOf(dest, at, src, from);
    PutBlock(dest, at, buf);
  }

  class Rijndael {
    const iv: array<byte>
    const enc: Cipher
    const dec: Cipher

    ghost predicate Valid() {
      iv.Length == 16
    }

    ghost function Iv(): Block
      requires Valid()
      reads iv
    {
      iv[..]
    }

    constructor (first: Block, enc: Cipher, dec: Cipher)
      ensures Valid() && fresh(iv) && Iv() == first && this.enc == enc && this.dec == dec
    {
      iv := new byte[16];
      this.enc, this.dec := enc, dec;
      new;
      PutBlock(iv, 0, first);
    }

    /** ssh_rijndael_cbc in encrypt mode; a length that is not a whole number of blocks is fatal. */
    method CbcEncryptBytes(dest: array<byte>, src: array<byte>, len: nat) returns (fatal: bool)
      requires Valid() && len <= src.Length && len <= dest.Length
      requires iv != dest && iv != src
      modifies iv, dest
      ensures fatal <==> len % 16 != 0
      ensures fatal ==> Iv() == old(Iv()) && dest[..] == old(dest[..])
      ensures !fatal ==>
                var p := old(Parts(src[..], len / 16));
                var c := Parts(dest[..], len / 16);
                c == CbcEncrypt(enc, old(Iv()), p) && Iv() == Chained(old(Iv()), c)
      ensures dest[len..] == old(dest[len..])
    {
      if len % 16 != 0 {
        return true;
      }
      if len == 0 {
        return false;
      }
      var last := Forward(dest, src, len / 16, len);
      PutBlock(iv, 0, last);
      return false;
    }

    /** The encryption loop; returns the last ciphertext block. */
    method Forward(dest: array<byte>, src: array<byte>, blocks: nat, len: nat) returns (last: Block)
      requires Valid() && 16 * blocks == len <= src.Length && len <= dest.Length
      requires iv != dest && iv != src
      modifies dest
      ensures Parts(dest[..], blocks) == CbcEncrypt(enc, old(Iv()), old(Parts(src[..], blocks)))
      ensures last == Chained(old(Iv()), Parts(dest[..], blocks))
      ensures dest[len..] == old(dest[len..])
    {
      ghost var iv0, p := Iv(), Parts(src[..], blocks);
      var cprev, off := iv, 0;
      for i := 0 to blocks
        invariant if i == 0 then cprev == iv && off == 0 else cprev == dest && off == 16 * (i - 1)
        invariant Parts(dest[..], i) == CbcEncrypt(enc, iv0, p[..i])
        invariant cprev[off..off + 16] == Chained(iv0, CbcEncrypt(enc, iv0, p[..i]))
        invariant Back(src[..], p, i)
        invariant dest[len..] == old(dest[len..])
        modifies dest
      {
        EncryptOne(dest, src, i, cprev, off, len, iv0, p);
        cprev, off := dest, 16 * i;
      }
      assert p[..blocks] == p;
      last := cprev[off..off + 16];
    }

    /** One forward step, for block `i`: the previous ciphertext block is behind `cprev`. */
    method EncryptOne(dest: array<byte>, src: array<byte>, i: nat, cprev: array<byte>, off: nat, len: nat,
                      ghost iv0: Block, ghost p: Text)
      requires 16 * i + 16 <= len <= src.Length && len <= dest.Length
      requires off + 16 <= cprev.Length && i < |p|
      requires Back(src[..], p, i)
      requires cprev[off..off + 16] == Chained(iv0, CbcEncrypt(enc, iv0, p[..i]))
      requires Parts(dest[..], i) == CbcEncrypt(enc, iv0, p[..i])
      modifies dest
      ensures Parts(dest[..], i + 1) == CbcEncrypt(enc, iv0, p[..i + 1])
      ensures dest[16 * i..16 * i + 16] == Chained(iv0, CbcEncrypt(enc, iv0, p[..i + 1]))
      ensures Back(src[..], p, i + 1) && dest[len..] == old(dest[len..])
    {
      ghost var sbefore := src[..];
      assert src[16 * i..16 * i + 16] == BlockAt(src[..], i);
      var buf := XorOf(src, 16 * i, cprev, off);
      ghost var before := dest[..];
      EncryptNext(enc, iv0, p, i, buf);
      PutBlock(dest, 16 * i, enc(buf));
      PartsNext(before, dest[..], i, enc(buf));
      TailsAgree(before, dest[..], 16 * i + 16, len, len);
      BackNext(sbefore, src[..], before, dest[..], p, i);
    }

    /** ssh_rijndael_cbc in decrypt mode: from the last block to the first, so that it works in place. */
    method CbcDecryptBytes(dest: array<byte>, src: array<byte>, len: nat) returns (fatal: bool)
      requires Valid() && len <= src.Length && len <= dest.Length
      requires iv != dest && iv != src
      modifies iv, dest
      ensures fatal <==> len % 16 != 0
      ensures fatal ==> Iv() == old(Iv()) && dest[..] == old(dest[..])
      ensures !fatal ==>
                var c := old(Parts(src[..], len / 16));
                Parts(dest[..], len / 16) == CbcDecrypt(dec, old(Iv()), c) && Iv() == Chained(old(Iv()), c)
      ensures dest[len..] == old(dest[len..])
    {
      if len % 16 != 0 {
        return true;
      }
      if len == 0 {
        return false;
      }
      var buf := src[len - 16..len];
      assert buf == BlockAt(src[..], len / 16 - 1);
      Backward(dest, src, len / 16, len);
      PutBlock(iv, 0, buf);
      return false;
    }

    /** The decryption loop. */
    method Backward(dest: array<byte>, src: array<byte>, blocks: nat, len: nat)
      requires Valid() && 16 * blocks == len <= src.Length && len <= dest.Length
      requires iv != dest && iv != src
      modifies dest
      ensures Parts(dest[..], blocks) == CbcDecrypt(dec, old(Iv()), old(Parts(src[..], blocks)))
      ensures dest[len..] == old(dest[len..])
    {
      ghost var iv0, c := Iv(), Parts(src[..], blocks);
      ghost var p := CbcDecrypt(dec, iv0, c);
      for i := blocks downto 0
        invariant Front(src[..], c, i) && Back(dest[..], p, i)
        invariant dest[len..] == old(dest[len..])
        modifies dest
      {
        ghost var before, sbefore := dest[..], src[..];
        DecryptOne(dest, src, i, len, iv0, c, p);
        FrontBack(sbefore, src[..], before, dest[..], c, p, i);
        TailsAgree(before, dest[..], 16 * i + 16, len, len);
      }
      assert Parts(dest[..], blocks) == p;
    }

    /** One backward step, for block `i`. */
    method DecryptOne(dest: array<byte>, src: array<byte>, i: nat, len: nat,
                      ghost iv0: Block, ghost c: Text, ghost p: Text)
      requires Valid() && 16 * i + 16 <= len <= src.Length && len <= dest.Length
      requires iv != dest && iv != src && Iv() == iv0
      requires i < |c| && p == CbcDecrypt(dec, iv0, c)
      requires Front(src[..], c, i + 1)
      modifies dest
      ensures BlockAt(dest[..], i) == p[i]
      ensures dest[..16 * i] == old(dest[..16 * i]) && dest[16 * i + 16..] == old(dest[16 * i + 16..])
    {
      CbcDecryptAt(dec, iv0, c, i);
      assert src[16 * i..16 * i + 16] == BlockAt(src[..], i);
      var cnow: Block := src[16 * i..16 * i + 16];
      var ivp, off := if i == 0 then iv else src, if i == 0 then 0 else 16 * (i - 1);
      assert i > 0 ==> ivp[off..off + 16] == BlockAt(src[..], i - 1);
      DecryptAt(dest, 16 * i, cnow, ivp, off);
    }

    /** Decrypts a block to its place and takes the previous ciphertext block off it. */
    method DecryptAt(dest: array<byte>, at: nat, cnow: Block, ivp: array<byte>, off: nat)
      requires at + 16 <= dest.Length && off + 16 <= ivp.Length && (dest == ivp ==> off + 16 <= at)
      modifies dest
      ensures dest[at..at + 16] == XorBlock(dec(cnow), old(ivp[off..off + 16]))
      ensures dest[..at] == old(dest[..at]) && dest[at + 16..] == old(dest[at + 16..])
    {
      ghost var before := dest[..];
      PutBlock(dest, at, dec(cnow));
      if ivp == dest { SlicesAgree(dest[..], before, at, off, off + 16); }
      XorInto(dest, at, ivp, off);
    }
  }

  /** The xor of two sixteen-byte places, read before anything is written. */
  method XorOf(a: array<byte>, at: nat, b: array<byte>, from: nat) returns (buf: Block)
    requires at + 16 <= a.Length && from + 16 <= b.Length
    ensures buf == XorBlock(a[at..at + 16], b[from..from + 16])
  {
    var s: seq<byte> := [];
    for j := 0 to 16
      invariant |s| == j && forall k :: 0 <= k < j ==> s[k] == a[at + k] ^ b[from + k]
    {
      s := s + [a[at + j] ^ b[from + j]];
    }
    buf := s;
  }

  // ----- counter mode -----

  /** The bytes from `i` on are final; what is before them still waits for the carry, if there is one. */
  predicate Carried(s: seq<byte>, t: seq<byte>, i: nat, add: byte) {
    && i <= |s| == |t| && t[..i] == s[..i] && (add == 0 || add == 1)
    && Inc(s) == (if add == 1 then Inc(s[..i]) else s[..i]) + t[i..]
  }

  lemma CarryStart(s: seq<byte>)
    ensures Carried(s, s, |s|, 1)
  {
    assert s[..|s|] == s && Inc(s) + [] == Inc(s) && s[|s|..] == [];
  }

  lemma CarryNext(s: seq<byte>, t: seq<byte>, i: nat, add: byte)
    requires i < |t| && Carried(s, t, i + 1, add)
    ensures var b := t[i] + add; Carried(s, t[i := b], i, NextAdd(add, b))
  {
    var b, rest, p, x := t[i] + add, t[i + 1..], s[..i], s[i];
    var u := t[i := b];
    Prefixes(s, t, i);
    assert u[..i] == t[..i] && u[i..] == [b] + rest;
    IncLast(p, x);
    Regroup(p, [b], rest);
    Regroup(Inc(p), [b], rest);
  }

  lemma Prefixes(s: seq<byte>, t: seq<byte>, i: nat)
    requires i < |s| == |t| && t[..i + 1] == s[..i + 1]
    ensures t[i] == s[i] && t[..i] == s[..i] && s[..i + 1] == s[..i] + [s[i]]
  {
    assert t[..i + 1][i] == t[i] && s[..i + 1][i] == s[i];
    assert t[..i + 1][..i] == t[..i] && s[..i + 1][..i] == s[..i];
  }

  lemma IncLast(p: seq<byte>, x: byte)
    ensures Inc(p + [x]) == if x + 1 != 0 then p + [x + 1] else Inc(p) + [0]
  {
    assert (p + [x])[..|p|] == p;
  }

  lemma CarryDone(s: seq<byte>, t: seq<byte>, i: nat, add: byte)
    requires Carried(s, t, i, add) && (i == 0 || add == 0)
    ensures t == Inc(s)
  {
    assert t == t[..i] + t[i..];
    assert i == 0 ==> Inc(s[..i]) == s[..i];
  }

  /** aesctr_inc, leaving at the first byte that does not wrap. */
  method IncEarlyExit(ctr: array<byte>)
    modifies ctr
    ensures ctr[..] == Inc(old(ctr[..]))
  {
    ghost var s := ctr[..];
    var i := ctr.Length;
    CarryStart(s);
    while i > 0
      invariant 0 <= i <= ctr.Length
      invariant Carried(s, ctr[..], i, 1)
    {
      i := i - 1;
      ghost var t := ctr[..];
      CarryNext(s, t, i, 1);
      ctr[i] := ctr[i] + 1;
      assert ctr[..] == t[i := t[i] + 1];
      if ctr[i] != 0 {
        CarryDone(s, ctr[..], i, 0);
        return;
      }
    }
    CarryDone(s, ctr[..], 0, 1);
  }

  /** 0 for a zero byte and 1 for any other, without a branch. */
  function NonZero(b: byte): (x: byte)
    ensures x == if b == 0 then 0 else 1
  {
    var x1 := (b | (b >> 4)) & 0xF;
    var x2 := (x1 | (x1 >> 2)) & 0x3;
    (x2 | (x2 >> 1)) & 0x1
  }

  /** The carry survives only a byte that became zero. */
  function NextAdd(add: byte, b: byte): (next: byte)
    ensures add == 0 ==> next == 0
    ensures add == 1 ==> next == if b == 0 then 1 else 0
  {
    add * (NonZero(b) ^ 1)
  }

  /** aesctr_inc in constant time: every byte is visited, and the carry is 1 or 0. */
  method IncConstantTime(ctr: array<byte>)
    modifies ctr
    ensures ctr[..] == Inc(old(ctr[..]))
  {
    ghost var s := ctr[..];
    var add: byte := 1;
    var i := ctr.Length;
    CarryStart(s);
    while i > 0
      invariant 0 <= i <= ctr.Length
      invariant Carried(s, ctr[..], i, add)
    {
      i := i - 1;
      ghost var t := ctr[..];
      CarryNext(s, t, i, add);
      ctr[i] := ctr[i] + add;
      assert ctr[..] == t[i := t[i] + add];
      add := NextAdd(add, ctr[i]);
    }
    CarryDone(s, ctr[..], 0, add);
  }

  class AesCtr {
    const ctr: array<byte>
    const enc: Cipher

    ghost predicate Valid() {
      ctr.Length == 16
    }

    ghost function Counter(): Block
      requires Valid()
      reads ctr
    {
      ctr[..]
    }

    constructor (first: Block, enc: Cipher)
      ensures Valid() && fresh(ctr) && Counter() == first && this.enc == enc
    {
      ctr := new byte[16];
      this.enc := enc;
      new;
      PutBlock(ctr, 0, first);
    }

    /** aesctr_encrypt_bytes: the same for both directions, in place or not. */
    method EncryptBytes(m: array<byte>, c: array<byte>, bytes: u32)
      requires Valid() && bytes <= m.Length && bytes <= c.Length
      requires ctr != m && ctr != c
      modifies ctr, c
      ensures c[..bytes] == Ctr(enc, old(Counter()), old(m[..bytes]))
      ensures c[bytes..] == old(c[bytes..])
      ensures Counter() == Counted(old(Counter()), Used(bytes))
    {
      ghost var start, text := Counter(), m[..bytes];
      ghost var q;
      var n;
      q, n := Stream(m, c, bytes);
      UsedOf(bytes, q, n);
      XorWithIs(KeyOf(enc, start), text, c[..bytes]);
    }

    /** The loop over the bytes; it ends in byte `n` of key block `q`. */
    method Stream(m: array<byte>, c: array<byte>, bytes: u32) returns (ghost q: nat, n: nat)
      requires Valid() && bytes <= m.Length && bytes <= c.Length
      requires ctr != m && ctr != c
      modifies ctr, c
      ensures forall k :: 0 <= k < bytes ==> c[k] == old(m[k]) ^ KeyByte(enc, old(Counter()), k)
      ensures c[bytes..] == old(c[bytes..])
      ensures bytes == 16 * q + n && n < 16 && Counter() == Counted(old(Counter()), if n == 0 then q else q + 1)
    {
      ghost var start := Counter();
      q, n := 0, 0;
      var i := 0;
      var buf: Block := seq(16, _ => 0);
      while i < bytes
        invariant 0 <= i <= bytes && i == 16 * q + n && 0 <= n < 16 && q >= 0
        invariant Counter() == Counted(start, if n == 0 then q else q + 1)
        invariant n != 0 ==> buf == enc(Counted(start, q))
        invariant forall k :: 0 <= k < i ==> c[k] == old(m[k]) ^ KeyByte(enc, start, k)
        invariant forall k :: i <= k < bytes ==> m[k] == old(m[k])
        invariant c[bytes..] == old(c[bytes..])
        modifies ctr, c
      {
        buf := NextBlock(n, buf, q, start);
        KeyAt(enc, start, i, q, n);
        PutXor(m, c, i, buf[n], bytes);
        n, q := if n == 15 then 0 else n + 1, if n == 15 then q + 1 else q;
        i := i + 1;
      }
    }

    /** A used up block is replaced by the cipher of the counter, which then moves on. */
    method NextBlock(n: nat, buf: Block, ghost q: nat, ghost start: Block) returns (next: Block)
      requires Valid() && Counter() == Counted(start, if n == 0 then q else q + 1)
      requires n != 0 ==> buf == enc(Counted(start, q))
      modifies ctr
      ensures Counter() == Counted(start, q + 1) && next == enc(Counted(start, q))
    {
      next := buf;
      if n == 0 {
        next := enc(ctr[..]);
        IncEarlyExit(ctr);
      }
    }

    /** One output byte. */
    static method PutXor(m: array<byte>, c: array<byte>, i: nat, k: byte, bytes: nat)
      requires i < bytes <= m.Length && bytes <= c.Length
      modifies c
      ensures c[i] == old(m[i]) ^ k && forall j :: 0 <= j < i ==> c[j] == old(c[j])
      ensures forall k :: i < k < bytes ==> m[k] == old(m[k])
      ensures c[bytes..] == old(c[bytes..])
    {
      c[i] := m[i] ^ k;
    }
  }
}
