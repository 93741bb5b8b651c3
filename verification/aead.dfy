/** Sealing and opening packets over arrays, in place or not. */
module Aead {
  import opened Primitives
  import opened Words
  import opened ChaChaSpec
  import opened ChaCha
  import opened AeadSpec

  const MAC_INVALID: int := -30
  const MESSAGE_INCOMPLETE: int := -3

  lemma Slices(s: seq<octet>, a: nat, n: nat)
    requires a + n <= |s|
    ensures s[0..a] == s[..a] && s[a..][..n] == s[a..a + n] && s[a..][n..] == s[a + n..]
    ensures s[..a + n] == s[..a] + s[a..a + n]
  {
  }

  lemma SameTail(s: seq<octet>, t: seq<octet>, n: nat, m: nat)
    requires |s| == |t| && n <= m <= |s| && s[n..] == t[n..]
    ensures s[m..] == t[m..]
  {
    assert s[m..] == s[n..][m - n..] && t[m..] == t[n..][m - n..];
  }

  class ChachaPoly {
    const main: Context
    const header: Context
    const poly: PolyFn

    ghost predicate Valid()
    {
      main.Valid() && header.Valid() && main.input != header.input
    }

    ghost function View(): Keys
      reads main.input, header.input
      requires Valid()
    {
      Keys(main.View(), header.View())
    }

    /** Between calls a context only has to remember its keys. */
    ghost predicate HasKeys(k: Keys)
      reads main.input, header.input
      requires Valid()
    {
      SameKey(main.View(), k.main) && SameKey(header.View(), k.header)
    }

    constructor (key: seq<octet>, poly: PolyFn)
      requires |key| == 64
      ensures Valid() && fresh(main.input) && fresh(header.input) && this.poly == poly
      ensures main.View()[..12] == KeySetup(seq(16, _ => 0), key[..32])[..12]
      ensures header.View()[..12] == KeySetup(seq(16, _ => 0), key[32..])[..12]
    {
      var m := new Context();
      var h := new Context();
      main, header := m, h;
      this.poly := poly;
      new;
      SetKey(main, key[..32]);
      SetKey(header, key[32..]);
    }

    static method SetKey(c: Context, k: seq<octet>)
      requires c.Valid() && |k| == 32
      modifies c.input
      ensures c.View()[..12] == KeySetup(seq(16, _ => 0), k)[..12]
    {
      var j: State := KeySetup(c.input[..], k);
      var i := 0;
      while i < 16
        invariant 0 <= i <= 16
        invariant forall w :: 0 <= w < i ==> c.input[w] == j[w]
        modifies c.input
      {
        c.input[i] := j[i];
        i := i + 1;
      }
      assert c.input[..] == j;
    }

    static method SetIv(c: Context, seqnr: u32, first: u32)
      requires c.Valid()
      modifies c.input
      ensures c.View() == IvSetup(old(c.View()), seqnr, first)
    {
      var seqbuf := SeqBuf(seqnr);
      c.input[12] := first;
      c.input[13] := 0;
      c.input[14] := WordAt(seqbuf, 0);
      c.input[15] := WordAt(seqbuf, 4);
    }

    /** One use of a context: set the counter and the nonce, then run the stream. */
    static method Use(c: Context, seqnr: u32, first: u32, src: array<octet>, dest: array<octet>, at: nat, n: u32,
                      ghost key: State)
      requires c.Valid() && SameKey(c.View(), key)
      requires at + n <= src.Length && at + n <= dest.Length
      requires c.input as object != src && c.input as object != dest
      modifies c.input, dest
      ensures SameKey(c.View(), key)
      ensures dest[at..at + n] == Crypt(ChaChaBlock, IvSetup(key, seqnr, first), old(src[at..at + n]))
      ensures dest[..at] == old(dest[..at]) && dest[at + n..] == old(dest[at + n..])
    {
      IvForgets(c.View(), key, seqnr, first);
      SetIv(c, seqnr, first);
      ghost var st := c.View();
      c.EncryptBytes(src, at, dest, at, n);
      AdvanceKeepsKey(key, seqnr, first, Blocks(n));
    }

    method MakePolyKey(seqnr: u32, ghost k: Keys) returns (key: seq<octet>)
      requires Valid() && HasKeys(k)
      modifies main.input
      ensures HasKeys(k) && key == PolyKey(ChaChaBlock, k, seqnr)
    {
      var buf := new octet[32](_ => 0);
      assert buf[0..32] == seq(32, _ => 0);
      Use(main, seqnr, 0, buf, buf, 0, 32, k.main);
      key := buf[0..32];
    }

    /** Encrypts the packet and appends its tag. */
    method Encrypt(seqnr: u32, dest: array<octet>, src: array<octet>, len: u32, aadlen: u32, ghost k: Keys)
      requires Valid() && HasKeys(k)
      requires aadlen + len <= src.Length && aadlen + len + TAG_LEN <= dest.Length
      requires {main.input as object, header.input} !! {src as object, dest}
      modifies main.input, header.input, dest
      ensures HasKeys(k)
      ensures dest[..aadlen + len + TAG_LEN] ==
              Seal(ChaChaBlock, poly, k, seqnr, old(src[..aadlen]), old(src[aadlen..aadlen + len]))
      ensures dest[aadlen + len + TAG_LEN..] == old(dest[aadlen + len + TAG_LEN..])
    {
      ghost var h, p, before := src[..aadlen], src[aadlen..aadlen + len], dest[..];
      var n := aadlen + len;
      var polyKey := MakePolyKey(seqnr, k);
      assert src[..aadlen] == h && src[aadlen..aadlen + len] == p && dest[..] == before;
      CryptBoth(seqnr, dest, src, len, aadlen, k);
      ghost var c, mid := dest[..n], dest[..];
      assert SealOfParts(k, seqnr, h, p, c, polyKey) by {
        SealOf(ChaChaBlock, poly, k, seqnr, h, p, c, polyKey, poly(c, polyKey));
      }
      AppendTag(dest, n, polyKey);
      SameTail(before, mid, n, n + TAG_LEN);
    }

    /** The seal of `h` and `p` is `c` and its tag. */
    ghost predicate SealOfParts(k: Keys, seqnr: u32, h: seq<octet>, p: seq<octet>, c: seq<octet>, key: seq<octet>) {
      Seal(ChaChaBlock, poly, k, seqnr, h, p) == c + poly(c, key)
    }

    method AppendTag(dest: array<octet>, n: nat, polyKey: seq<octet>)
      requires n + TAG_LEN <= dest.Length
      modifies dest
      ensures dest[..n + TAG_LEN] == old(dest[..n]) + poly(old(dest[..n]), polyKey)
      ensures dest[n + TAG_LEN..] == old(dest[n + TAG_LEN..])
    {
      var tag := poly(dest[..n], polyKey);
      PutTag(dest, n, tag);
    }

    /** Writes the tag at its place. */
    static method PutTag(dest: array<octet>, n: nat, tag: Tag)
      requires n + TAG_LEN <= dest.Length
      modifies dest
      ensures dest[..n + TAG_LEN] == old(dest[..n]) + tag
      ensures dest[n + TAG_LEN..] == old(dest[n + TAG_LEN..])
    {
      var i := 0;
      while i < TAG_LEN
        invariant 0 <= i <= TAG_LEN
        invariant dest[..n + i] == old(dest[..n]) + tag[..i]
        invariant dest[n + TAG_LEN..] == old(dest[n + TAG_LEN..])
        modifies dest
      {
        dest[n + i] := tag[i];
        assert dest[..n + (i + 1)] == dest[..n + i] + [tag[i]];
        i := i + 1;
      }
      assert tag[..TAG_LEN] == tag;
    }

    /** Checks the tag before anything else; on a mismatch the output is untouched. */
    method Decrypt(seqnr: u32, dest: array<octet>, src: array<octet>, len: u32, aadlen: u32, ghost k: Keys)
      returns (r: int)
      requires Valid() && HasKeys(k)
      requires aadlen + len + TAG_LEN <= src.Length && aadlen + len <= dest.Length
      requires {main.input as object, header.input} !! {src as object, dest}
      modifies main.input, header.input, dest
      ensures HasKeys(k)
      ensures var got := Open(ChaChaBlock, poly, k, seqnr, old(src[..aadlen + len + TAG_LEN]), aadlen);
              && r == (if got.None? then MAC_INVALID else 0)
              && (got.None? ==> dest[..] == old(dest[..]))
              && (got.Some? ==> dest[..aadlen + len] == got.value.0 + got.value.1
                                   && dest[aadlen + len..] == old(dest[aadlen + len..]))
    {
      var n := aadlen + len;
      ghost var s := src[..n + TAG_LEN];
      assert s[..n] == src[..n] && s[n..] == src[n..n + TAG_LEN];
      assert s[..aadlen] == src[..aadlen] && s[aadlen..n] == src[aadlen..n];
      var polyKey := MakePolyKey(seqnr, k);
      var expected := poly(src[..n], polyKey);
      if expected != src[n..n + TAG_LEN] {
        return MAC_INVALID;
      }
      CryptBoth(seqnr, dest, src, len, aadlen, k);
      return 0;
    }

    /** The two stream runs over header and payload, which are the same in both directions. */
    method CryptBoth(seqnr: u32, dest: array<octet>, src: array<octet>, len: u32, aadlen: u32, ghost k: Keys)
      requires Valid() && HasKeys(k)
      requires aadlen + len <= src.Length && aadlen + len <= dest.Length
      requires {main.input as object, header.input} !! {src as object, dest}
      modifies main.input, header.input, dest
      ensures HasKeys(k)
      ensures dest[..aadlen + len] == CryptHeader(ChaChaBlock, k, seqnr, old(src[..aadlen]))
                                      + CryptBody(ChaChaBlock, k, seqnr, old(src[aadlen..aadlen + len]))
      ensures dest[aadlen + len..] == old(dest[aadlen + len..])
    {
      ghost var h, p := src[..aadlen], src[aadlen..aadlen + len];
      Slices(src[..], aadlen, len);
      Slices(dest[..], aadlen, len);
      if aadlen > 0 {
        Use(header, seqnr, 0, src, dest, 0, aadlen, k.header);
      }
      ghost var mid := dest[..];
      Slices(mid, aadlen, len);
      assert mid[..aadlen] == CryptHeader(ChaChaBlock, k, seqnr, h);
      assert src[aadlen..aadlen + len] == p by {
        if src == dest { Slices(src[..], aadlen, len); }
      }
      Use(main, seqnr, 1, src, dest, aadlen, len, k.main);
      Slices(dest[..], aadlen, len);
    }

    /** The packet length, from the first four bytes; a shorter prefix is incomplete. */
    method GetPacketLength(seqnr: u32, cp: array<octet>, len: nat, ghost k: Keys) returns (r: int, plen: nat)
      requires Valid() && HasKeys(k) && len <= cp.Length
      requires header.input as object != cp
      modifies header.input
      ensures HasKeys(k)
      ensures r == if len < 4 then MESSAGE_INCOMPLETE else 0
      ensures r == 0 ==> Some(plen) == GetLength(ChaChaBlock, k, seqnr, cp[..len])
    {
      if len < 4 {
        return MESSAGE_INCOMPLETE, 0;
      }
      var buf := new octet[4];
      assert cp[0..4] == cp[..len][..4];
      Use(header, seqnr, 0, cp, buf, 0, 4, k.header);
      return 0, BigEndian(buf[0..4]);
    }
  }
}
