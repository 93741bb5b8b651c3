/** Address arithmetic in place: masks, and, inversion, comparison, increment and network matching. */
module Addr {
  import opened Primitives
  import opened Words
  import opened AddrSpec

  class XAddr {
    var af: Family
    const addr32: array<u32>
    var scopeId: u32

    ghost predicate Valid() {
      addr32.Length == 4
    }

    /** The words in use, most significant first. */
    ghost function Used(): (ws: seq<u32>)
      requires Valid()
      reads this, addr32
      ensures |ws| == Span(af)
    {
      addr32[..Span(af)]
    }

    constructor ()
      ensures Valid() && fresh(addr32) && addr32[..] == [0, 0, 0, 0] && af == Other && scopeId == 0
    {
      af, scopeId := Other, 0;
      addr32 := new u32[4](_ => 0);
    }
  }

  method AddrInvert(n: XAddr) returns (r: int)
    requires n.Valid()
    modifies n.addr32
    ensures r == if n.af == Other then -1 else 0
    ensures n.Used() == NotAll(old(n.Used()))
  {
    match n.af
    case Inet =>
      n.addr32[0] := Not32(n.addr32[0]);
      r := 0;
    case Inet6 =>
      for i := 0 to 4
        invariant forall k :: 0 <= k < 4 ==> n.addr32[k] == if k < i then Not32(old(n.addr32[k])) else old(n.addr32[k])
        modifies n.addr32
      {
        n.addr32[i] := Not32(n.addr32[i]);
      }
      r := 0;
    case Other =>
      r := -1;
  }

  method AddrNetmask(af: Family, l: nat, n: XAddr) returns (r: int)
    requires n.Valid()
    modifies n, n.addr32
    ensures r == if MasklenValid(af, l) then 0 else -1
    ensures r == 0 ==> n.af == af && n.scopeId == 0 && n.Used() == Mask(Span(af), l)
    ensures r != 0 ==> n.af == old(n.af) && n.scopeId == old(n.scopeId) && n.addr32[..] == old(n.addr32[..])
  {
    if !MasklenValid(af, l) {
      return -1;
    }
    n.scopeId := 0;
    for i := 0 to 4
      invariant forall k :: 0 <= k < i ==> n.addr32[k] == 0
      invariant n.scopeId == 0
      modifies n.addr32
    {
      n.addr32[i] := 0;
    }
    n.af := af;
    match af
    case Inet =>
      if l != 0 {
        n.addr32[0] := ShiftedOnes(l);
        if l == 32 { FullShift(); }
      }
      r := 0;
    case Inet6 =>
      Netmask6(l, n.addr32);
      r := 0;
  }

  lemma FullShift()
    ensures ShiftedOnes(32) == ALL_ONES
  {
    ShiftedOnesValue(32);
  }

  /** The IPv6 part: whole words first, then the one the mask ends in. */
  method Netmask6(l: nat, w: array<u32>)
    requires l <= 128 && w.Length == 4 && forall k :: 0 <= k < 4 ==> w[k] == 0
    modifies w
    ensures w[..4] == Mask(4, l)
  {
    var i, rest := 0, l;
    while i < 4 && rest >= 32
      invariant 0 <= i <= 4 && rest == l - 32 * i && rest >= 0
      invariant forall k :: 0 <= k < 4 ==> w[k] == if k < i then ALL_ONES else 0
    {
      w[i] := ALL_ONES;
      i, rest := i + 1, rest - 32;
    }
    if i < 4 && rest != 0 {
      w[i] := ShiftedOnes(rest);
    }
  }

  method AddrHostmask(af: Family, l: nat, n: XAddr) returns (r: int)
    requires n.Valid()
    modifies n, n.addr32
    ensures r == if MasklenValid(af, l) then 0 else -1
    ensures r == 0 ==> n.af == af && n.Used() == NotAll(Mask(Span(af), l))
  {
    r := AddrNetmask(af, l, n);
    if r == -1 {
      return -1;
    }
    r := AddrInvert(n);
  }

  /** Addresses are distinct objects with distinct words, or the same. */
  predicate Apart(a: XAddr, b: XAddr) {
    a == b || a.addr32 != b.addr32
  }

  /**
   The and of two addresses; the scope comes from the first.  The destination may be the first
   address; a destination that is the second one is overwritten before it is read.
   */
  method AddrAnd(dst: XAddr, a: XAddr, b: XAddr) returns (r: int)
    requires dst.Valid() && a.Valid() && b.Valid() && Apart(dst, a) && Apart(dst, b)
    modifies dst, dst.addr32
    ensures r == if old(a.af) != old(b.af) || old(a.af) == Other then -1 else 0
    ensures old(a.af) != old(b.af) ==> dst.af == old(dst.af) && dst.scopeId == old(dst.scopeId)
                                       && dst.addr32[..] == old(dst.addr32[..])
    ensures r == 0 ==> dst.af == old(a.af) && dst.scopeId == old(a.scopeId)
    ensures r == 0 && dst != b ==> dst.Used() == AndAll(old(a.Used()), old(b.Used()))
    ensures r == 0 && dst == b ==> dst.Used() == old(a.Used())
  {
    if a.af != b.af {
      return -1;
    }
    ghost var x, y := a.addr32[..], if dst == b then a.addr32[..] else b.addr32[..];
    dst.af, dst.scopeId := a.af, a.scopeId;
    CopyWords(dst.addr32, a.addr32);
    assert b.addr32[..] == y;
    match dst.af
    case Inet =>
      dst.addr32[0] := And32(dst.addr32[0], b.addr32[0]);
      AndSelf(x[0]);
      r := 0;
    case Inet6 =>
      for i := 0 to 4
        invariant forall k :: 0 <= k < 4 ==> dst.addr32[k] == if k < i then And32(x[k], y[k]) else x[k]
        invariant dst != b ==> b.addr32[..] == y
        modifies dst.addr32
      {
        AndSelf(x[i]);
        dst.addr32[i] := And32(dst.addr32[i], b.addr32[i]);
      }
      forall k | 0 <= k < 4
        ensures dst == b ==> dst.addr32[k] == x[k]
      {
        AndSelf(x[k]);
      }
      r := 0;
    case Other =>
      r := -1;
  }

  lemma AndSelf(w: u32)
    ensures And32(w, w) == w
  {
    AndSame(w);
  }

  method CopyWords(dst: array<u32>, src: array<u32>)
    requires dst.Length == src.Length == 4
    modifies dst
    ensures dst[..] == old(src[..])
  {
    for i := 0 to 4
      invariant dst[..i] == old(src[..i])
      invariant src[..] == old(src[..])
      modifies dst
    {
      dst[i] := src[i];
    }
  }

  method AddrIsAll0s(a: XAddr) returns (r: int)
    requires a.Valid()
    ensures r == if a.af != Other && AllZero(a.Used()) then 0 else -1
  {
    match a.af
    case Inet =>
      r := if a.addr32[0] == 0 then 0 else -1;
    case Inet6 =>
      for i := 0 to 4
        invariant forall k :: 0 <= k < i ==> a.addr32[k] == 0
      {
        if a.addr32[i] != 0 {
          assert a.Used()[i] != 0;
          return -1;
        }
      }
      r := 0;
    case Other =>
      r := -1;
  }

  /** 0 exactly when 2 to the number of host bits divides the address. */
  method AddrHostIsAll0s(a: XAddr, masklen: nat) returns (r: int)
    requires a.Valid()
    ensures r == if MasklenValid(a.af, masklen) && NoHostBits(a.Used(), masklen) then 0 else -1
  {
    var mask := new XAddr();
    var result := new XAddr();
    ghost var ws := a.Used();
    r := AddrHostmask(a.af, masklen, mask);
    if r == -1 {
      return -1;
    }
    r := AddrAnd(result, a, mask);
    assert result.Used() == HostPart(ws, masklen);
    HostZeroIffDivides(ws, masklen);
    r := AddrIsAll0s(result);
  }

  // ----- order -----

  /** Byte `i` of an address. */
  function Addr8(w: seq<u32>, i: nat): octet
    requires i < 4 * |w|
  {
    ByteAt(w[i / 4], 3 - i % 4)
  }

  lemma {:induction false} BytesAt(w: seq<u32>, i: nat)
    requires i < 4 * |w|
    ensures Bytes(w)[i] == Addr8(w, i)
    decreases |w|
  {
    if i < 4 * (|w| - 1) {
      BytesAt(w[..|w| - 1], i);
    } else {
      assert i / 4 == |w| - 1 && i % 4 == i - 4 * (|w| - 1);
    }
  }

  predicate Sign(r: int, a: int, b: int) {
    (r < 0 <==> a < b) && (r == 0 <==> a == b)
  }

  /** Within a family the order of the numbers, then that of the scopes; IPv6 addresses are above all others. */
  method AddrCmp(a: XAddr, b: XAddr) returns (r: int)
    requires a.Valid() && b.Valid()
    ensures a.af != b.af ==> r == if a.af == Inet6 then 1 else -1
    ensures a.af == b.af == Inet ==> Sign(r, Num(a.Used()), Num(b.Used()))
    ensures a.af == b.af == Inet6 && Num(a.Used()) != Num(b.Used()) ==> Sign(r, Num(a.Used()), Num(b.Used()))
    ensures a.af == b.af == Inet6 && Num(a.Used()) == Num(b.Used()) ==> Sign(r, a.scopeId, b.scopeId)
    ensures a.af == b.af == Other ==> r == -1
  {
    if a.af != b.af {
      return if a.af == Inet6 then 1 else -1;
    }
    match a.af
    case Inet =>
      OneWord(a.Used());
      OneWord(b.Used());
      if a.addr32[0] == b.addr32[0] {
        return 0;
      }
      r := if a.addr32[0] > b.addr32[0] then 1 else -1;
    case Inet6 =>
      r := Cmp6(a.addr32, b.addr32);
      assert a.addr32[..4] == a.addr32[..] && b.addr32[..4] == b.addr32[..];
      if r != 0 {
        return;
      }
      if a.scopeId == b.scopeId {
        return 0;
      }
      r := if a.scopeId > b.scopeId then 1 else -1;
    case Other =>
      r := -1;
  }

  lemma OneWord(ws: seq<u32>)
    requires |ws| == 1
    ensures Num(ws) == ws[0]
  {
    assert Num(ws[..0]) == 0;
  }

  /** The first byte that differs decides. */
  method Cmp6(a: array<u32>, b: array<u32>) returns (r: int)
    requires a.Length == b.Length == 4
    ensures Sign(r, Num(a[..]), Num(b[..]))
  {
    ghost var s, t := Bytes(a[..]), Bytes(b[..]);
    BytesNum(a[..]);
    BytesNum(b[..]);
    for i := 0 to 16
      invariant s[..i] == t[..i]
    {
      BytesAt(a[..], i);
      BytesAt(b[..], i);
      var x, y := Addr8(a[..], i), Addr8(b[..], i);
      if x - y != 0 {
        if x < y { FirstDifference(s, t, i); } else { FirstDifference(t, s, i); }
        return x - y;
      }
    }
    assert s[..16] == s && t[..16] == t;
    r := 0;
  }

  // ----- increment -----

  method AddrIncrement(a: XAddr)
    requires a.Valid()
    modifies a.addr32
    ensures a.Used() == Increment(old(a.Used()))
  {
    match a.af
    case Inet =>
      assert old(a.Used())[..0] == [];
      a.addr32[0] := Add32(a.addr32[0], 1);
    case Inet6 =>
      assert a.addr32[..4] == a.addr32[..];
      Increment6(a.addr32);
      assert a.addr32[..4] == a.addr32[..];
    case Other =>
  }

  /** From the last word on, as long as a word becomes zero. */
  method Increment6(w: array<u32>)
    requires w.Length == 4
    modifies w
    ensures w[..] == Increment(old(w[..]))
  {
    ghost var s := w[..];
    assert s[..4] == s && Increment(s) + [] == Increment(s);
    for i := 0 to 4
      invariant w[..4 - i] == s[..4 - i]
      invariant Increment(s) == Increment(s[..4 - i]) + w[4 - i..]
    {
      var k := 3 - i;
      ghost var rest := w[k + 1..];
      ghost var front := s[..k + 1];
      assert front[..k] == s[..k] && front[k] == s[k] == w[..4 - i][k] == w[k];
      assert w[..k] == w[..4 - i][..k];
      var n := Add32(w[k], 1);
      Regroup(if n != 0 then s[..k] else Increment(s[..k]), [n], rest);
      w[k] := n;
      assert w[k..] == [n] + rest;
      if n != 0 {
        assert w[..] == w[..k] + w[k..];
        return;
      }
    }
    assert w[0..] == w[..] && s[..0] == [];
  }

  // ----- matching -----

  /** 0 exactly when the net has no host bits, shares the host's network part and, for IPv6, its scope. */
  method AddrNetmatch(host: XAddr, net: XAddr, masklen: nat) returns (r: int)
    requires host.Valid() && net.Valid()
    ensures r == 0 <==>
              && host.af == net.af && MasklenValid(host.af, masklen)
              && (host.af == Inet6 ==> host.scopeId == net.scopeId)
              && Matches(host.Used(), net.Used(), masklen)
  {
    if host.af != net.af {
      return -1;
    }
    var mask := new XAddr();
    var result := new XAddr();
    ghost var hs, ns := host.Used(), net.Used();
    r := AddrNetmask(host.af, masklen, mask);
    if r == -1 {
      return -1;
    }
    r := AddrAnd(result, host, mask);
    assert result.Used() == Masked(hs, masklen);
    SameNet(hs, ns, masklen);
    r := AddrCmp(result, net);
  }
}
