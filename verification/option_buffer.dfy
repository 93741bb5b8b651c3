/** The buffer that option records are written to and read from, in place. */
module OptionBuffer {
  import opened Primitives
  import opened Words
  import opened OptionWire

  /** A write happens completely or, when it does not fit, leaves at most a part behind. */
  predicate Wrote(before: seq<octet>, w: seq<octet>, r: int, after: seq<octet>) {
    && (r == 0 <==> |before| + |w| <= BUF_MAX)
    && (r == 0 ==> after == before + w)
    && (r != 0 ==> before <= after)
    && |after| <= BUF_MAX
  }

  lemma WroteBoth(a: seq<octet>, w: seq<octet>, b: seq<octet>, x: seq<octet>, r: int, c: seq<octet>)
    requires Wrote(a, w, 0, b) && Wrote(b, x, r, c)
    ensures Wrote(a, w + x, r, c)
  {
    assert a + w + x == a + (w + x);
  }

  lemma WroteLess(a: seq<octet>, w: seq<octet>, r: int, b: seq<octet>, x: seq<octet>)
    requires Wrote(a, w, r, b) && r != 0
    ensures Wrote(a, w + x, r, b)
  {
  }

  /** A read gives the parsed value and consumes what was parsed, or reports the parse error. */
  predicate Read<T(==)>(g: Got<T>, r: int, v: T, after: seq<octet>) {
    match g
    case Got(w, rest) => r == 0 && v == w && after == rest
    case Failed(code, rest) => r == code && after == rest
  }

  lemma {:induction false} StrungPrefix(a: seq<CString>, i: nat)
    requires Each(a) && i <= |a|
    ensures |Strung(a[..i])| <= |Strung(a)|
    decreases |a|
  {
    if i < |a| {
      var c := a[..|a| - 1];
      assert c[..i] == a[..i];
      StrungPrefix(c, i);
    } else {
      assert a[..i] == a;
    }
  }

  class Sshbuf {
    var data: seq<octet>

    constructor ()
      ensures data == []
    {
      data := [];
    }

    ghost predicate Valid()
      reads this
    {
      |data| <= BUF_MAX
    }

    // ----- writing -----

    method Put(w: seq<octet>) returns (r: int)
      requires Valid()
      modifies this
      ensures Wrote(old(data), w, r, data)
      ensures r == 0 || (r == NO_BUFFER_SPACE && data == old(data))
    {
      if |w| > BUF_MAX || BUF_MAX - |w| < |data| {
        return NO_BUFFER_SPACE;
      }
      data := data + w;
      return 0;
    }

    method PutString(s: seq<octet>) returns (r: int)
      requires Valid()
      modifies this
      ensures |s| > BUF_MAX - 4 ==> r == NO_BUFFER_SPACE && data == old(data)
      ensures |s| <= BUF_MAX - 4 ==> Wrote(old(data), WireString(s), r, data)
    {
      if |s| > BUF_MAX - 4 {
        return NO_BUFFER_SPACE;
      }
      r := Put(Wire32(|s|) + s);
    }

    method SerialiseArray(a: seq<CString>) returns (r: int)
      requires Valid()
      modifies this
      ensures ListFits(a) ==> Wrote(old(data), WireList(a), r, data)
      ensures !ListFits(a) ==> r != 0 && old(data) <= data && Valid()
    {
      if |a| > INT_MAX {
        if Each(a) { ListLength(a); }
        return INTERNAL_ERROR;
      }
      var b := new Sshbuf();
      var i := 0;
      while i < |a|
        invariant 0 <= i <= |a| && Each(a[..i])
        invariant b.data == Strung(a[..i]) && b.Valid()
        modifies b
      {
        assert a[..i + 1][..i] == a[..i] && a[..i + 1][i] == a[i];
        ghost var sofar := Strung(a[..i]);
        r := b.PutString(a[i]);
        if r != 0 {
          assert |a[i]| <= BUF_MAX - 4 ==> Each(a[..i + 1]) && |Strung(a[..i + 1])| > BUF_MAX;
          if Each(a) { StrungPrefix(a, i + 1); }
          return;
        }
        assert Each(a[..i + 1]);
        assert Strung(a[..i + 1]) == Strung(a[..i]) + WireString(a[i]);
        i := i + 1;
      }
      assert a[..i] == a;
      r := Put(Wire32(|a|));
      if r != 0 {
        if ListFits(a) { WroteLess(old(data), Wire32(|a|), r, data, WireString(Strung(a))); }
        return;
      }
      ghost var mid := data;
      r := PutString(b.data);
      if ListFits(a) { WroteBoth(old(data), Wire32(|a|), mid, WireString(Strung(a)), r, data); }
    }

    method SerialiseNullable(s: Option<CString>) returns (r: int)
      requires Valid()
      modifies this
      ensures StringFits(s) ==> Wrote(old(data), WireNullable(s), r, data)
      ensures !StringFits(s) ==> r != 0 && old(data) <= data && Valid()
    {
      var flag: octet := if s.None? then 1 else 0;
      var text := if s.None? then [] else s.value;
      r := Put([flag]);
      if r != 0 {
        if StringFits(s) { WroteLess(old(data), [flag], r, data, WireString(text)); }
        return;
      }
      ghost var mid := data;
      r := PutString(text);
      if StringFits(s) { WroteBoth(old(data), [flag], mid, WireString(text), r, data); }
    }

    /** Three flags in a row, each cut to a byte. */
    method PutThree(a: i32, b: i32, c: i32) returns (r: int)
      requires Valid()
      modifies this
      ensures Wrote(old(data), [Byte(a), Byte(b), Byte(c)], r, data)
    {
      r := Put([Byte(a)]);
      if r != 0 { return; }
      r := Put([Byte(b)]);
      if r != 0 { return; }
      r := Put([Byte(c)]);
    }

    method SerialiseFlags(f: Flags) returns (r: int)
      requires Valid()
      modifies this
      ensures Wrote(old(data), WireFlags(f), r, data)
    {
      r := PutThree(f.portForwarding, f.agentForwarding, f.x11Forwarding);
      if r != 0 { return; }
      r := PutThree(f.pty, f.userRc, f.restricted);
      if r != 0 { return; }
      r := PutThree(f.certAuthority, f.noUserPresence, f.requireVerify);
    }

    /** Flags, expiry date and tunnel device. */
    method SerialiseHead(o: Options) returns (r: int)
      requires Valid()
      modifies this
      ensures Wrote(old(data), WireHead(o), r, data)
    {
      ghost var f, v, t := WireFlags(o.flags), Wire64(o.validBefore), WireTun(o.tun);
      r := SerialiseFlags(o.flags);
      if r != 0 {
        WroteLess(old(data), f, r, data, v);
        WroteLess(old(data), f + v, r, data, t);
        return;
      }
      ghost var a := data;
      r := Put(Wire64(o.validBefore));
      WroteBoth(old(data), f, a, v, r, data);
      if r != 0 {
        WroteLess(old(data), f + v, r, data, t);
        return;
      }
      ghost var b := data;
      r := SerialiseTun(o.tun);
      WroteBoth(old(data), f + v, b, t, r, data);
    }

    /** The number can be negative for "unset". */
    method SerialiseTun(tun: i32) returns (r: int)
      requires Valid()
      modifies this
      ensures Wrote(old(data), WireTun(tun), r, data)
    {
      ghost var flag: seq<octet> := [if tun == -1 then 1 else 0];
      ghost var value := Wire32(if tun < 0 then 0 else tun);
      r := Put([if tun == -1 then 1 else 0]);
      if r != 0 {
        WroteLess(old(data), flag, r, data, value);
        return;
      }
      ghost var a := data;
      r := Put(Wire32(if tun < 0 then 0 else tun));
      WroteBoth(old(data), flag, a, value, r, data);
    }

    method SerialiseTwo(s: Option<CString>, t: Option<CString>) returns (r: int)
      requires Valid()
      modifies this
      ensures StringFits(s) && StringFits(t) ==> Wrote(old(data), WireTwo(s, t), r, data)
      ensures !(StringFits(s) && StringFits(t)) ==> r != 0 && old(data) <= data && Valid()
    {
      ghost var fits := StringFits(s) && StringFits(t);
      r := SerialiseNullable(s);
      if r != 0 {
        if fits { WroteLess(old(data), WireNullable(s), r, data, WireNullable(t)); }
        return;
      }
      ghost var a := data;
      r := SerialiseNullable(t);
      if fits { WroteBoth(old(data), WireNullable(s), a, WireNullable(t), r, data); }
    }

    method SerialiseStrings(x: Strings) returns (r: int)
      requires Valid()
      modifies this
      ensures StringsFit(x) ==> Wrote(old(data), WireStrings(x), r, data)
      ensures !StringsFit(x) ==> r != 0 && old(data) <= data && Valid()
    {
      r := SerialiseTwo(x.certPrincipals, x.forceCommand);
      if r != 0 {
        if StringsFit(x) {
          WroteLess(old(data), WireTwo(x.certPrincipals, x.forceCommand), r, data,
                    WireTwo(x.fromHostCert, x.fromHostKeys));
        }
        return;
      }
      ghost var a := data;
      r := SerialiseTwo(x.fromHostCert, x.fromHostKeys);
      if StringsFit(x) {
        WroteBoth(old(data), WireTwo(x.certPrincipals, x.forceCommand), a, WireTwo(x.fromHostCert, x.fromHostKeys),
                  r, data);
      }
    }

    method SerialiseLists(x: Lists) returns (r: int)
      requires Valid()
      modifies this
      ensures ListsFit(x) ==> Wrote(old(data), WireLists(x), r, data)
      ensures !ListsFit(x) ==> r != 0 && old(data) <= data && Valid()
    {
      r := SerialiseArray(x.env);
      if r != 0 {
        if ListsFit(x) {
          WroteLess(old(data), WireList(x.env), r, data, WireList(x.permitopen));
          WroteLess(old(data), WireList(x.env) + WireList(x.permitopen), r, data, WireList(x.permitlisten));
        }
        return;
      }
      ghost var a := data;
      r := SerialiseArray(x.permitopen);
      if ListsFit(x) { WroteBoth(old(data), WireList(x.env), a, WireList(x.permitopen), r, data); }
      if r != 0 {
        if ListsFit(x) {
          WroteLess(old(data), WireList(x.env) + WireList(x.permitopen), r, data, WireList(x.permitlisten));
        }
        return;
      }
      ghost var b := data;
      r := SerialiseArray(x.permitlisten);
      if ListsFit(x) {
        WroteBoth(old(data), WireList(x.env) + WireList(x.permitopen), b, WireList(x.permitlisten), r, data);
      }
    }

    /** Appends the record's bytes; succeeds exactly when they fit behind what the buffer holds. */
    method Serialise(opts: Options, untrusted: bool) returns (r: int)
      requires Valid()
      modifies this
      ensures Valid() && old(data) <= data
      ensures var o := Shown(opts, untrusted);
              && (r == 0 <==> Fits(o) && |old(data)| + |Wire(o)| <= BUF_MAX)
              && (r == 0 ==> data == old(data) + Wire(o))
    {
      ghost var o := Shown(opts, untrusted);
      r := SerialiseHead(opts);
      if r != 0 { return; }
      ghost var a := data;
      r := SerialiseStrings(if untrusted then Strings(Some(YES), Some(TRUE), None, None) else opts.strings);
      if r != 0 { return; }
      ghost var b := data;
      r := SerialiseLists(if untrusted then Lists([], [], []) else opts.lists);
      if Fits(o) {
        WroteBoth(a, WireStrings(o.strings), b, WireLists(o.lists), r, data);
        WroteBoth(old(data), WireHead(o), a, WireTail(o), r, data);
      }
    }

    // ----- reading -----

    method Get8Bits() returns (r: int, v: octet)
      modifies this
      ensures Read(Get8(old(data)), r, v, data)
    {
      if |data| < 1 {
        return MESSAGE_INCOMPLETE, 0;
      }
      r, v, data := 0, data[0], data[1..];
    }

    method Get32Bits() returns (r: int, v: u32)
      modifies this
      ensures Read(Get32(old(data)), r, v, data)
    {
      if |data| < 4 {
        return MESSAGE_INCOMPLETE, 0;
      }
      r, v, data := 0, Get32(data).value, data[4..];
    }

    method Get64Bits() returns (r: int, v: u64)
      modifies this
      ensures Read(Get64(old(data)), r, v, data)
    {
      if |data| < 8 {
        return MESSAGE_INCOMPLETE, 0;
      }
      r, v, data := 0, Get64(data).value, data[8..];
    }

    method GetCStringOut() returns (r: int, s: CString)
      modifies this
      ensures Read(GetCString(old(data)), r, s, data)
    {
      var (e, len) := PeekString(data);
      if e != 0 {
        return e, [];
      }
      var p := data[4..4 + len];
      if len > 0 && 0 in p[..len - 1] {
        return INVALID_FORMAT, [];
      }
      r, s, data := 0, UpToZero(p), data[4 + len..];
    }

    method DeserialiseNullable() returns (r: int, s: Option<CString>)
      modifies this
      ensures Read(GetNullable(old(data)), r, s, data)
    {
      s := None;
      var flag, text;
      r, flag := Get8Bits();
      if r != 0 { return; }
      r, text := GetCStringOut();
      if r != 0 { return; }
      if flag == 0 { s := Some(text); }
    }

    method DeserialiseArray() returns (r: int, a: seq<CString>)
      modifies this
      ensures Read(GetList(old(data)), r, a, data)
    {
      a := [];
      var n;
      r, n := Get32Bits();
      if r != 0 { return; }
      var (e, len) := PeekString(data);
      if e != 0 { return e, []; }
      var b := new Sshbuf();
      b.data := data[4..4 + len];
      data := data[4 + len..];
      if n > INT_MAX { return INVALID_FORMAT, []; }
      ghost var rest;
      r, a, rest := b.GetAll(n);
      if r != 0 { a := []; }
    }

    /** Reads `n` strings; nothing comes back unless all of them are there. */
    method GetAll(n: nat) returns (r: int, a: seq<CString>, ghost rest: seq<octet>)
      modifies this
      ensures Read(GetStrings(old(data), n), r, a, rest)
    {
      ghost var s := data;
      a := [];
      var i := 0;
      while i < n
        invariant 0 <= i <= n
        invariant GetStrings(s, i) == Got(a, data)
      {
        var x;
        r, x := GetCStringOut();
        if r != 0 {
          GetStringsStuck(s, i + 1, n);
          rest := data;
          return;
        }
        a := a + [x];
        i := i + 1;
      }
      r, rest := 0, data;
    }

    /** Three flags in a row. */
    method GetThree() returns (r: int, a: octet, b: octet, c: octet)
      modifies this
      ensures var s := old(data);
              if |s| < 3 then r == MESSAGE_INCOMPLETE && data == []
              else r == 0 && a == s[0] && b == s[1] && c == s[2] && data == s[3..]
    {
      b, c := 0, 0;
      r, a := Get8Bits();
      if r != 0 { return; }
      r, b := Get8Bits();
      if r != 0 { return; }
      r, c := Get8Bits();
    }

    method DeserialiseFlags() returns (r: int, f: Flags)
      modifies this
      ensures Read(GetFlags(old(data)), r, f, data)
    {
      f := Flags(0, 0, 0, 0, 0, 0, 0, 0, 0);
      var portForwarding, agentForwarding, x11Forwarding;
      r, portForwarding, agentForwarding, x11Forwarding := GetThree();
      if r != 0 { return; }
      var pty, userRc, restricted;
      r, pty, userRc, restricted := GetThree();
      if r != 0 { return; }
      var certAuthority, noUserPresence, requireVerify;
      r, certAuthority, noUserPresence, requireVerify := GetThree();
      if r != 0 { return; }
      f := Flags(portForwarding, agentForwarding, x11Forwarding, pty, userRc, restricted,
                 certAuthority, noUserPresence, requireVerify);
    }

    /** Reads one record from the front of the buffer; the caller gets it only on success. */
    method Deserialise() returns (r: int, opts: Option<Options>)
      modifies this
      ensures var got := Parse(old(data));
              && data == got.rest
              && r == (if got.Got? then 0 else got.code)
              && opts == (if got.Got? then Some(got.value) else None)
    {
      opts := None;
      var h, x;
      r, h := DeserialiseHead();
      if r != 0 { return; }
      r, x := DeserialiseTail();
      if r != 0 { return; }
      opts := Some(Options(h.0, h.1, h.2, x.0, x.1));
    }

    method DeserialiseHead() returns (r: int, h: (Flags, u64, i32))
      modifies this
      ensures Read(GetHead(old(data)), r, h, data)
    {
      h := (Flags(0, 0, 0, 0, 0, 0, 0, 0, 0), 0, 0);
      var flags, validBefore, flag, tmp;
      r, flags := DeserialiseFlags();
      if r != 0 { return; }
      r, validBefore := Get64Bits();
      if r != 0 { return; }
      r, flag := Get8Bits();
      if r != 0 { return; }
      r, tmp := Get32Bits();
      if r != 0 { return; }
      h := (flags, validBefore, if flag != 0 then -1 else Signed(tmp));
    }

    method DeserialiseTail() returns (r: int, x: (Strings, Lists))
      modifies this
      ensures Read(GetTail(old(data)), r, x, data)
    {
      x := (Strings(None, None, None, None), Lists([], [], []));
      var strings, lists;
      r, strings := DeserialiseStrings();
      if r != 0 { return; }
      r, lists := DeserialiseLists();
      if r != 0 { return; }
      x := (strings, lists);
    }

    method DeserialiseStrings() returns (r: int, x: Strings)
      modifies this
      ensures Read(GetAllStrings(old(data)), r, x, data)
    {
      x := Strings(None, None, None, None);
      var a, b, c, d;
      r, a := DeserialiseNullable();
      if r != 0 { return; }
      r, b := DeserialiseNullable();
      if r != 0 { return; }
      r, c := DeserialiseNullable();
      if r != 0 { return; }
      r, d := DeserialiseNullable();
      if r != 0 { return; }
      x := Strings(a, b, c, d);
    }

    method DeserialiseLists() returns (r: int, x: Lists)
      modifies this
      ensures Read(GetAllLists(old(data)), r, x, data)
    {
      x := Lists([], [], []);
      var a, b, c;
      r, a := DeserialiseArray();
      if r != 0 { return; }
      r, b := DeserialiseArray();
      if r != 0 { return; }
      r, c := DeserialiseArray();
      if r != 0 { return; }
      x := Lists(a, b, c);
    }
  }

  /** An element that cannot be read stops every longer read with the same error. */
  lemma {:induction false} GetStringsStuck(s: seq<octet>, i: nat, n: nat)
    requires i <= n && GetStrings(s, i).Failed?
    ensures GetStrings(s, n) == GetStrings(s, i)
    decreases n
  {
    if i < n {
      GetStringsStuck(s, i, n - 1);
    }
  }
}
