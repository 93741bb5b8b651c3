/**
 Packet sealing with ChaCha and Poly1305: the length field under one key, the payload under
 another, and a tag over both ciphertexts.  Poly1305 is any function to 16-byte tags.
 */
module AeadSpec {
  import opened Primitives
  import opened Words
  import opened ChaChaSpec

  const TAG_LEN: nat := 16

  type Tag = t: seq<octet> | |t| == 16 witness seq(16, _ => 0)
  type PolyFn = (seq<octet>, seq<octet>) -> Tag

  /** The key halves of the two contexts: only words 0 to 11 of each matter. */
  datatype Keys = Keys(main: State, header: State)

  // ----- setting up the contexts -----

  const SIGMA: seq<octet> :=
    [101, 120, 112, 97, 110, 100, 32, 51, 50, 45, 98, 121, 116, 101, 32, 107]   // "expand 32-byte k"

  function WordAt(s: seq<octet>, i: nat): u32
    requires i + 4 <= |s|
  {
    Load(s[i], s[i + 1], s[i + 2], s[i + 3])
  }

  /** chacha_keysetup for a 256-bit key. */
  function KeySetup(j: State, k: seq<octet>): State
    requires |k| == 32
  {
    [WordAt(SIGMA, 0), WordAt(SIGMA, 4), WordAt(SIGMA, 8), WordAt(SIGMA, 12),
     WordAt(k, 0), WordAt(k, 4), WordAt(k, 8), WordAt(k, 12),
     WordAt(k, 16), WordAt(k, 20), WordAt(k, 24), WordAt(k, 28)] + j[12..]
  }

  /** The sequence number as eight big-endian bytes. */
  function SeqBuf(seqnr: u32): (s: seq<octet>)
    ensures |s| == 8
  {
    [0, 0, 0, 0, Store(seqnr, 3), Store(seqnr, 2), Store(seqnr, 1), Store(seqnr, 0)]
  }

  /** chacha_ivsetup: the counter starts at `first`, the nonce is the packet's sequence number. */
  function IvSetup(j: State, seqnr: u32, first: u32): State {
    j[12 := first][13 := 0][14 := WordAt(SeqBuf(seqnr), 0)][15 := WordAt(SeqBuf(seqnr), 4)]
  }

  /** Two states of a context between packets differ only where the set-up overwrites them. */
  predicate SameKey(j: State, k: State) {
    j[..12] == k[..12]
  }

  lemma IvForgets(j: State, k: State, seqnr: u32, first: u32)
    requires SameKey(j, k)
    ensures IvSetup(j, seqnr, first) == IvSetup(k, seqnr, first)
  {
    forall i | 0 <= i < 12
      ensures j[i] == k[i]
    {
      assert j[i] == j[..12][i] == k[..12][i] == k[i];
    }
  }

  lemma AdvanceKeepsKey(j: State, seqnr: u32, first: u32, n: nat)
    ensures SameKey(Advance(IvSetup(j, seqnr, first), n), j)
  {
    CounterAdvances(IvSetup(j, seqnr, first), n);
  }

  // ----- sealing and opening -----

  function PolyKey(blk: BlockFn, k: Keys, seqnr: u32): seq<octet> {
    Crypt(blk, IvSetup(k.main, seqnr, 0), seq(32, _ => 0))
  }

  function CryptHeader(blk: BlockFn, k: Keys, seqnr: u32, h: seq<octet>): (c: seq<octet>)
    ensures |c| == |h|
  {
    Crypt(blk, IvSetup(k.header, seqnr, 0), h)
  }

  /** The payload starts at block 1; block 0 made the authentication key. */
  function CryptBody(blk: BlockFn, k: Keys, seqnr: u32, p: seq<octet>): (c: seq<octet>)
    ensures |c| == |p|
  {
    Crypt(blk, IvSetup(k.main, seqnr, 1), p)
  }

  function Seal(blk: BlockFn, poly: PolyFn, k: Keys, seqnr: u32, h: seq<octet>, p: seq<octet>): (s: seq<octet>)
    ensures |s| == |h| + |p| + TAG_LEN
  {
    var c := CryptHeader(blk, k, seqnr, h) + CryptBody(blk, k, seqnr, p);
    c + poly(c, PolyKey(blk, k, seqnr))
  }

  /** A seal, put together from its parts. */
  lemma SealOf(blk: BlockFn, poly: PolyFn, k: Keys, seqnr: u32, h: seq<octet>, p: seq<octet>, c: seq<octet>,
               key: seq<octet>, tag: Tag)
    requires c == CryptHeader(blk, k, seqnr, h) + CryptBody(blk, k, seqnr, p)
    requires key == PolyKey(blk, k, seqnr) && tag == poly(c, key)
    ensures Seal(blk, poly, k, seqnr, h, p) == c + tag
  {
  }

  /** The two plaintexts, if the tag that follows them is right. */
  function Open(blk: BlockFn, poly: PolyFn, k: Keys, seqnr: u32, s: seq<octet>, aadlen: nat)
    : Option<(seq<octet>, seq<octet>)>
    requires aadlen + TAG_LEN <= |s|
  {
    var n := |s| - TAG_LEN;
    if poly(s[..n], PolyKey(blk, k, seqnr)) != s[n..] then None
    else Some((CryptHeader(blk, k, seqnr, s[..aadlen]), CryptBody(blk, k, seqnr, s[aadlen..n])))
  }

  /** Opening undoes sealing, for every key, sequence number, header and payload. */
  lemma OpenUndoesSeal(blk: BlockFn, poly: PolyFn, k: Keys, seqnr: u32, h: seq<octet>, p: seq<octet>)
    ensures Open(blk, poly, k, seqnr, Seal(blk, poly, k, seqnr, h, p), |h|) == Some((h, p))
  {
    var s := Seal(blk, poly, k, seqnr, h, p);
    var c := CryptHeader(blk, k, seqnr, h) + CryptBody(blk, k, seqnr, p);
    assert s[..|s| - TAG_LEN] == c;
    assert s[|s| - TAG_LEN..] == poly(c, PolyKey(blk, k, seqnr));
    assert s[..|h|] == CryptHeader(blk, k, seqnr, h);
    assert s[|h|..|s| - TAG_LEN] == CryptBody(blk, k, seqnr, p);
    CryptBack(blk, k, seqnr, h, p);
  }

  /** Only what sealing produced is opened: an accepted packet is the seal of what it opens to. */
  lemma SealUndoesOpen(blk: BlockFn, poly: PolyFn, k: Keys, seqnr: u32, s: seq<octet>, aadlen: nat)
    requires aadlen + TAG_LEN <= |s|
    requires Open(blk, poly, k, seqnr, s, aadlen).Some?
    ensures var (h, p) := Open(blk, poly, k, seqnr, s, aadlen).value;
            Seal(blk, poly, k, seqnr, h, p) == s
  {
    var n := |s| - TAG_LEN;
    var a, b := s[..aadlen], s[aadlen..n];
    CryptBack(blk, k, seqnr, a, b);
    Rejoin(s, aadlen, n);
    SealOf(blk, poly, k, seqnr, CryptHeader(blk, k, seqnr, a), CryptBody(blk, k, seqnr, b), s[..n],
           PolyKey(blk, k, seqnr), s[n..]);
  }

  lemma Rejoin(s: seq<octet>, a: nat, n: nat)
    requires a <= n <= |s|
    ensures s[..a] + s[a..n] == s[..n] && s[..n] + s[n..] == s
  {
  }

  lemma CryptBack(blk: BlockFn, k: Keys, seqnr: u32, a: seq<octet>, b: seq<octet>)
    ensures CryptHeader(blk, k, seqnr, CryptHeader(blk, k, seqnr, a)) == a
    ensures CryptBody(blk, k, seqnr, CryptBody(blk, k, seqnr, b)) == b
  {
    CryptTwice(blk, IvSetup(k.header, seqnr, 0), a);
    CryptTwice(blk, IvSetup(k.main, seqnr, 1), b);
  }

  // ----- what a context and a seal look like -----

  lemma StoreLoad(b0: octet, b1: octet, b2: octet, b3: octet)
    ensures var w := Load(b0, b1, b2, b3);
            Store(w, 0) == b0 && Store(w, 1) == b1 && Store(w, 2) == b2 && Store(w, 3) == b3
  {
    var r3 := b3 + 0x100 * 0;
    var r2 := b2 + 0x100 * r3;
    var r1 := b1 + 0x100 * r2;
    var w := Load(b0, b1, b2, b3);
    ShiftedBytes(w);
    Recompose(w, b0, r1);
    Recompose(r1, b1, r2);
    Recompose(r2, b2, r3);
  }

  /** Four words that hold sixteen bytes. */
  predicate Holds(j: State, w: nat, s: seq<octet>)
    requires w + 4 <= 16 && |s| == 16
  {
    forall i :: 0 <= i < 16 ==> Store(j[w + i / 4], i % 4) == s[i]
  }

  lemma HoldsAt(j: State, w: nat, s: seq<octet>)
    requires w + 4 <= 16 && |s| == 16
    requires j[w] == WordAt(s, 0) && j[w + 1] == WordAt(s, 4) && j[w + 2] == WordAt(s, 8) && j[w + 3] == WordAt(s, 12)
    ensures Holds(j, w, s)
  {
    WordHolds(j[w], s, 0);
    WordHolds(j[w + 1], s, 4);
    WordHolds(j[w + 2], s, 8);
    WordHolds(j[w + 3], s, 12);
    FourHold(j, w, s);
  }

  /** The bytes of a word, lowest first. */
  function Bytes(w: u32): (s: seq<octet>)
    ensures |s| == 4
  {
    [Store(w, 0), Store(w, 1), Store(w, 2), Store(w, 3)]
  }

  /** The text that starts every context. */
  function TextBytes(): (s: seq<octet>)
    ensures |s| == 16
  {
    var text := "expand 32-byte k";
    seq(16, i requires 0 <= i < 16 => text[i] as int % 256)
  }

  /** The words that set a context up for a packet, as bytes. */
  function ContextText(k: seq<octet>, seqnr: u32, first: u32): (s: seq<octet>)
    requires |k| == 32
    ensures |s| == 64
  {
    TextBytes() + k + (Bytes(first) + [0, 0, 0, 0]
    + ([0, 0, 0, 0] + [Store(seqnr, 3), Store(seqnr, 2), Store(seqnr, 1), Store(seqnr, 0)]))
  }

  /**
   The sixteen words of a context set up for a packet are, as bytes, the constant text, the key,
   the block counter with its lowest byte first, and the sequence number with its lowest byte last.
   */
  lemma ContextBytes(j: State, k: seq<octet>, seqnr: u32, first: u32)
    requires |k| == 32
    ensures var c, t := IvSetup(KeySetup(j, k), seqnr, first), ContextText(k, seqnr, first);
            Holds(c, 0, t[..16]) && Holds(c, 4, t[16..32]) && Holds(c, 8, t[32..48]) && Holds(c, 12, t[48..])
  {
    var c, t := IvSetup(KeySetup(j, k), seqnr, first), ContextText(k, seqnr, first);
    TextParts(k, seqnr, first);
    TextHolds(c, j, k, seqnr, first);
    KeyHolds(c, j, k, seqnr, first);
    CounterHolds(c, seqnr, first);
  }

  lemma TextHolds(c: State, j: State, k: seq<octet>, seqnr: u32, first: u32)
    requires |k| == 32 && c == IvSetup(KeySetup(j, k), seqnr, first)
    ensures Holds(c, 0, SIGMA)
  {
    HoldsAt(c, 0, SIGMA);
  }

  lemma KeyHolds(c: State, j: State, k: seq<octet>, seqnr: u32, first: u32)
    requires |k| == 32 && c == IvSetup(KeySetup(j, k), seqnr, first)
    ensures Holds(c, 4, k[..16]) && Holds(c, 8, k[16..])
  {
    HoldsAt(c, 4, k[..16]);
    HoldsAt(c, 8, k[16..]);
  }

  lemma CounterHolds(c: State, seqnr: u32, first: u32)
    requires c[12] == first && c[13] == 0
    requires c[14] == WordAt(SeqBuf(seqnr), 0) && c[15] == WordAt(SeqBuf(seqnr), 4)
    ensures Holds(c, 12, Bytes(first) + [0, 0, 0, 0] + SeqBuf(seqnr))
  {
    WordHolds(c[14], SeqBuf(seqnr), 0);
    WordHolds(c[15], SeqBuf(seqnr), 4);
    PartsHold(c, Bytes(first), SeqBuf(seqnr));
  }

  /** One word that holds four bytes of `s`. */
  predicate HoldsWord(v: u32, s: seq<octet>, i: nat)
    requires i + 4 <= |s|
  {
    Store(v, 0) == s[i] && Store(v, 1) == s[i + 1] && Store(v, 2) == s[i + 2] && Store(v, 3) == s[i + 3]
  }

  lemma WordHolds(v: u32, t: seq<octet>, m: nat)
    requires m + 4 <= |t| && v == WordAt(t, m)
    ensures HoldsWord(v, t, m)
  {
    StoreLoad(t[m], t[m + 1], t[m + 2], t[m + 3]);
  }

  lemma Moved(v: u32, t: seq<octet>, m: nat, s: seq<octet>, i: nat)
    requires m + 4 <= |t| && i + 4 <= |s| && HoldsWord(v, t, m) && s[i..i + 4] == t[m..m + 4]
    ensures HoldsWord(v, s, i)
  {
    var a, b := s[i..i + 4], t[m..m + 4];
    assert a[0] == s[i] && a[1] == s[i + 1] && a[2] == s[i + 2] && a[3] == s[i + 3];
    assert b[0] == t[m] && b[1] == t[m + 1] && b[2] == t[m + 2] && b[3] == t[m + 3];
  }

  lemma FourHold(j: State, w: nat, s: seq<octet>)
    requires w + 4 <= 16 && |s| == 16
    requires HoldsWord(j[w], s, 0) && HoldsWord(j[w + 1], s, 4)
    requires HoldsWord(j[w + 2], s, 8) && HoldsWord(j[w + 3], s, 12)
    ensures Holds(j, w, s)
  {
  }

  lemma PartsHold(c: State, a: seq<octet>, b: seq<octet>)
    requires |a| == 4 && |b| == 8
    requires HoldsWord(c[12], a, 0) && HoldsWord(c[13], [0, 0, 0, 0], 0)
    requires HoldsWord(c[14], b, 0) && HoldsWord(c[15], b, 4)
    ensures Holds(c, 12, a + [0, 0, 0, 0] + b)
  {
    var z: seq<octet> := [0, 0, 0, 0];
    var s := a + z + b;
    assert s[0..4] == a[0..4] && s[4..8] == z[0..4] && s[8..12] == b[0..4] && s[12..16] == b[4..8];
    Moved(c[12], a, 0, s, 0);
    Moved(c[13], z, 0, s, 4);
    Moved(c[14], b, 0, s, 8);
    Moved(c[15], b, 4, s, 12);
    FourHold(c, 12, s);
  }

  lemma TextParts(k: seq<octet>, seqnr: u32, first: u32)
    requires |k| == 32
    ensures var t := ContextText(k, seqnr, first);
            && t[..16] == SIGMA && t[16..32] == k[..16] && t[32..48] == k[16..]
            && t[48..] == Bytes(first) + [0, 0, 0, 0] + SeqBuf(seqnr)
  {
    var z: seq<octet> := [0, 0, 0, 0];
    var n: seq<octet> := [Store(seqnr, 3), Store(seqnr, 2), Store(seqnr, 1), Store(seqnr, 0)];
    TextIsSigma();
    ThreeParts(TextBytes(), k, Bytes(first) + z + (z + n));
    assert z + n == SeqBuf(seqnr);
  }

  lemma TextIsSigma()
    ensures TextBytes() == SIGMA
  {
  }

  lemma ThreeParts(a: seq<octet>, k: seq<octet>, b: seq<octet>)
    requires |a| == 16 && |k| == 32 && |b| == 16
    ensures var t := a + k + b;
            t[..16] == a && t[16..32] == k[..16] && t[32..48] == k[16..] && t[48..] == b
  {
  }

  /**
   One run over 64 zero bytes and the payload gives the authentication key in its first 32 bytes
   and the payload's ciphertext behind the first block, so that no byte of the key stream serves
   both; the header's ciphertext comes from the other key, and the tag covers both ciphertexts.
   */
  lemma SealParts(blk: BlockFn, poly: PolyFn, k: Keys, seqnr: u32, h: seq<octet>, p: seq<octet>)
    ensures var run := Crypt(blk, IvSetup(k.main, seqnr, 0), seq(64, _ => 0) + p);
            var c := Crypt(blk, IvSetup(k.header, seqnr, 0), h) + run[64..];
            Seal(blk, poly, k, seqnr, h, p) == c + poly(c, run[..32])
  {
    var z, j := seq(64, _ => 0), IvSetup(k.main, seqnr, 0);
    CryptSplits(blk, j, z, p);
    assert Advance(j, 1) == Next(Advance(j, 0)) == IvSetup(k.main, seqnr, 1);
    var run := Crypt(blk, j, z + p);
    assert run[64..] == CryptBody(blk, k, seqnr, p);
    CryptPrefix(blk, j, z + p, 32);
    assert (z + p)[..32] == seq(32, _ => 0);
  }

  // ----- the length field -----

  /** Decrypts the first four bytes and reads them as a big-endian number; None for a short packet. */
  function GetLength(blk: BlockFn, k: Keys, seqnr: u32, s: seq<octet>): Option<nat> {
    if |s| < 4 then None else Some(BigEndian(CryptHeader(blk, k, seqnr, s[..4])))
  }

  /** The length of a sealed packet can be read before the packet is complete. */
  lemma LengthOfSealed(blk: BlockFn, poly: PolyFn, k: Keys, seqnr: u32, h: seq<octet>, p: seq<octet>, got: nat)
    requires |h| >= 4 && 4 <= got <= |h| + |p| + TAG_LEN
    ensures GetLength(blk, k, seqnr, Seal(blk, poly, k, seqnr, h, p)[..got]) == Some(BigEndian(h[..4]))
  {
    var s := Seal(blk, poly, k, seqnr, h, p);
    assert s[..got][..4] == CryptHeader(blk, k, seqnr, h)[..4];
    CryptPrefix(blk, IvSetup(k.header, seqnr, 0), h, 4);
    CryptTwice(blk, IvSetup(k.header, seqnr, 0), h[..4]);
  }
}
