/**
 The wire form of key options: what is written for a record, how it is read back, and which
 records survive the trip.  Strings are length-prefixed as in section 5 of RFC 4251.
 */
module OptionWire {
  import opened Primitives
  import opened Words

  const BUF_MAX: nat := 0x800_0000
  const INT_MAX: nat := 0x7FFF_FFFF
  const INTERNAL_ERROR: int := -1
  const MESSAGE_INCOMPLETE: int := -3
  const INVALID_FORMAT: int := -4
  const STRING_TOO_LARGE: int := -6
  const NO_BUFFER_SPACE: int := -9

  type i32 = x: int | -0x8000_0000 <= x < 0x8000_0000
  type u64 = x: int | 0 <= x < 0x1_0000_0000_0000_0000

  /** What a NUL-terminated C string holds. */
  type CString = s: seq<octet> | 0 !in s

  datatype Flags = Flags(portForwarding: i32, agentForwarding: i32, x11Forwarding: i32, pty: i32, userRc: i32,
                         restricted: i32, certAuthority: i32, noUserPresence: i32, requireVerify: i32)
  datatype Strings = Strings(certPrincipals: Option<CString>, forceCommand: Option<CString>,
                             fromHostCert: Option<CString>, fromHostKeys: Option<CString>)
  datatype Lists = Lists(env: seq<CString>, permitopen: seq<CString>, permitlisten: seq<CString>)
  datatype Options = Options(flags: Flags, validBefore: u64, tun: i32, strings: Strings, lists: Lists)

  type ErrorCode = c: int | c != 0 witness -1

  /** The outcome of reading from a buffer: a value or an error, and what is left in the buffer. */
  datatype Got<+T> = Got(value: T, rest: seq<octet>) | Failed(code: ErrorCode, rest: seq<octet>)

  // ----- numbers -----

  function Byte(v: int): octet {
    v % 256
  }

  function Wire32(v: u32): (s: seq<octet>)
    ensures |s| == 4
  {
    [ByteAt(v, 3), ByteAt(v, 2), ByteAt(v, 1), ByteAt(v, 0)]
  }

  function Wire64(v: u64): (s: seq<octet>)
    ensures |s| == 8
  {
    [ByteAt(v, 7), ByteAt(v, 6), ByteAt(v, 5), ByteAt(v, 4), ByteAt(v, 3), ByteAt(v, 2), ByteAt(v, 1), ByteAt(v, 0)]
  }

  function Get8(s: seq<octet>): Got<octet> {
    if |s| < 1 then Failed(MESSAGE_INCOMPLETE, s) else Got(s[0], s[1..])
  }

  function Get32(s: seq<octet>): Got<u32> {
    if |s| < 4 then Failed(MESSAGE_INCOMPLETE, s) else
      BigEndianBound(s[..4]);
      WholeWords();
      Got(BigEndian(s[..4]), s[4..])
  }

  function Get64(s: seq<octet>): Got<u64> {
    if |s| < 8 then Failed(MESSAGE_INCOMPLETE, s) else
      BigEndianBound(s[..8]);
      WholeWords();
      Got(BigEndian(s[..8]), s[8..])
  }

  lemma Wire32Back(v: u32, rest: seq<octet>)
    ensures Get32(Wire32(v) + rest) == Got(v, rest)
  {
    WholeWords();
    BytesSpell(Wire32(v), v);
    assert (Wire32(v) + rest)[..4] == Wire32(v) && (Wire32(v) + rest)[4..] == rest;
  }

  lemma Wire64Back(v: u64, rest: seq<octet>)
    ensures Get64(Wire64(v) + rest) == Got(v, rest)
  {
    WholeWords();
    BytesSpell(Wire64(v), v);
    assert (Wire64(v) + rest)[..8] == Wire64(v) && (Wire64(v) + rest)[8..] == rest;
  }

  // ----- strings -----

  function WireString(s: seq<octet>): (w: seq<octet>)
    requires |s| <= BUF_MAX - 4
    ensures |w| == 4 + |s|
  {
    Wire32(|s|) + s
  }

  /** The length of a complete string at the front of the buffer, or an error. */
  function PeekString(s: seq<octet>): (r: (int, nat))
    ensures r.0 == 0 ==> 4 + r.1 <= |s| && r.1 <= BUF_MAX - 4
  {
    if |s| < 4 then (MESSAGE_INCOMPLETE, 0)
    else
      var len := Get32(s).value;
      if len > BUF_MAX - 4 then (STRING_TOO_LARGE, 0)
      else if |s| - 4 < len then (MESSAGE_INCOMPLETE, 0)
      else (0, len)
  }

  function GetString(s: seq<octet>): Got<seq<octet>> {
    var (r, len) := PeekString(s);
    if r != 0 then Failed(r, s) else Got(s[4..4 + len], s[4 + len..])
  }

  /** A zero byte is allowed as the last byte only, where it ends the C string early. */
  function GetCString(s: seq<octet>): Got<CString> {
    var (r, len) := PeekString(s);
    if r != 0 then Failed(r, s)
    else
      var p := s[4..4 + len];
      if len > 0 && 0 in p[..len - 1] then Failed(INVALID_FORMAT, s)
      else Got(UpToZero(p), s[4 + len..])
  }

  function UpToZero(p: seq<octet>): CString
    requires |p| > 0 ==> 0 !in p[..|p| - 1]
  {
    if |p| > 0 && p[|p| - 1] == 0 then p[..|p| - 1]
    else
      assert |p| > 0 ==> p == p[..|p| - 1] + [p[|p| - 1]];
      p
  }

  lemma WireStringBack(s: seq<octet>, rest: seq<octet>)
    requires |s| <= BUF_MAX - 4
    ensures GetString(WireString(s) + rest) == Got(s, rest)
    ensures 0 !in s ==> GetCString(WireString(s) + rest) == Got(s, rest)
  {
    var w := WireString(s) + rest;
    assert w == Wire32(|s|) + (s + rest);
    Wire32Back(|s|, s + rest);
    assert w[4..4 + |s|] == s && w[4 + |s|..] == rest;
  }

  function WireNullable(s: Option<CString>): seq<octet>
    requires s.Some? ==> |s.value| <= BUF_MAX - 4
  {
    match s
    case None => [1] + WireString([])
    case Some(v) => [0] + WireString(v)
  }

  function GetNullable(s: seq<octet>): Got<Option<CString>> {
    match Get8(s)
    case Failed(r, t) => Failed(r, t)
    case Got(flag, t) =>
      match GetCString(t)
      case Failed(r, u) => Failed(r, u)
      case Got(v, u) => Got(if flag != 0 then None else Some(v), u)
  }

  lemma WireNullableBack(s: Option<CString>, rest: seq<octet>)
    requires s.Some? ==> |s.value| <= BUF_MAX - 4
    ensures GetNullable(WireNullable(s) + rest) == Got(s, rest)
  {
    var flag, v := if s.None? then 1 else 0, if s.None? then [] else s.value;
    WireStringBack(v, rest);
    var w := WireNullable(s) + rest;
    assert w == [flag] + (WireString(v) + rest);
    assert w[1..] == WireString(v) + rest;
  }

  // ----- arrays -----

  predicate Each(a: seq<CString>) {
    forall i :: 0 <= i < |a| ==> |a[i]| <= BUF_MAX - 4
  }

  /** The strings of an array, one after another. */
  function Strung(a: seq<CString>): (w: seq<octet>)
    requires Each(a)
  {
    if a == [] then [] else Strung(a[..|a| - 1]) + WireString(a[|a| - 1])
  }

  predicate ListFits(a: seq<CString>) {
    Each(a) && |Strung(a)| <= BUF_MAX - 4
  }

  lemma {:induction false} ListLength(a: seq<CString>)
    requires Each(a)
    ensures |a| * 4 <= |Strung(a)|
  {
    if a != [] {
      ListLength(a[..|a| - 1]);
    }
  }

  function WireList(a: seq<CString>): seq<octet>
    requires ListFits(a)
  {
    ListLength(a);
    Wire32(|a|) + WireString(Strung(a))
  }

  /** Reads `n` strings; the number read so far comes first. */
  function GetStrings(s: seq<octet>, n: nat): Got<seq<CString>>
    decreases n
  {
    if n == 0 then Got([], s)
    else
      match GetStrings(s, n - 1)
      case Failed(r, t) => Failed(r, t)
      case Got(a, t) =>
        match GetCString(t)
        case Failed(r, u) => Failed(r, u)
        case Got(v, u) => Got(a + [v], u)
  }

  /** Bytes of the inner string behind its last element are ignored. */
  function GetList(s: seq<octet>): Got<seq<CString>> {
    match Get32(s)
    case Failed(r, t) => Failed(r, t)
    case Got(n, t) =>
      match GetString(t)
      case Failed(r, u) => Failed(r, u)
      case Got(b, u) =>
        if n > INT_MAX then Failed(INVALID_FORMAT, u)
        else
          match GetStrings(b, n)
          case Failed(r, _) => Failed(r, u)
          case Got(a, _) => Got(a, u)
  }

  lemma ReadOneMore(s: seq<octet>, n: nat, c: seq<CString>, v: CString, rest: seq<octet>)
    requires |v| <= BUF_MAX - 4
    requires GetStrings(s, n) == Got(c, WireString(v) + rest)
    ensures GetStrings(s, n + 1) == Got(c + [v], rest)
  {
    WireStringBack(v, rest);
  }

  lemma {:induction false} StrungBack(a: seq<CString>, rest: seq<octet>)
    requires Each(a)
    ensures GetStrings(Strung(a) + rest, |a|) == Got(a, rest)
    decreases |a|
  {
    if a == [] {
      assert Strung(a) + rest == rest;
    } else {
      StrungStep(a, rest);
      var c, v, s := a[..|a| - 1], a[|a| - 1], Strung(a) + rest;
      StrungBack(c, WireString(v) + rest);
      assert GetStrings(s, |c|) == Got(c, WireString(v) + rest);
      ReadOneMore(s, |c|, c, v, rest);
    }
  }

  lemma StrungStep(a: seq<CString>, rest: seq<octet>)
    requires a != [] && Each(a)
    ensures var c, v := a[..|a| - 1], a[|a| - 1];
            a == c + [v] && Strung(a) + rest == Strung(c) + (WireString(v) + rest)
  {
    var c, v := a[..|a| - 1], a[|a| - 1];
    assert Strung(a) == Strung(c) + WireString(v);
    Regroup(Strung(c), WireString(v), rest);
  }

  lemma WireListBack(a: seq<CString>, rest: seq<octet>)
    requires ListFits(a)
    ensures GetList(WireList(a) + rest) == Got(a, rest)
  {
    var inner := WireString(Strung(a));
    ListLength(a);
    assert WireList(a) + rest == Wire32(|a|) + (inner + rest);
    Wire32Back(|a|, inner + rest);
    WireStringBack(Strung(a), rest);
    StrungBack(a, []);
    assert Strung(a) + [] == Strung(a);
  }

  // ----- the record, part by part -----

  function WireFlags(f: Flags): (w: seq<octet>)
    ensures |w| == 9
  {
    [Byte(f.portForwarding), Byte(f.agentForwarding), Byte(f.x11Forwarding), Byte(f.pty), Byte(f.userRc),
     Byte(f.restricted), Byte(f.certAuthority), Byte(f.noUserPresence), Byte(f.requireVerify)]
  }

  function GetFlags(s: seq<octet>): Got<Flags> {
    if |s| < 9 then Failed(MESSAGE_INCOMPLETE, [])
    else Got(Flags(s[0], s[1], s[2], s[3], s[4], s[5], s[6], s[7], s[8]), s[9..])
  }

  function WireTun(tun: i32): (w: seq<octet>)
    ensures |w| == 5
  {
    [if tun == -1 then 1 else 0] + Wire32(if tun < 0 then 0 else tun)
  }

  /** The number as the C type int. */
  function Signed(v: u32): i32 {
    if v < 0x8000_0000 then v else v - WORD_SIZE
  }

  function GetTun(s: seq<octet>): Got<i32> {
    match Get8(s)
    case Failed(r, t) => Failed(r, t)
    case Got(f, t) =>
      match Get32(t)
      case Failed(r, u) => Failed(r, u)
      case Got(v, u) => Got(if f != 0 then -1 else Signed(v), u)
  }

  predicate StringFits(s: Option<CString>) {
    s.Some? ==> |s.value| <= BUF_MAX - 4
  }

  predicate StringsFit(x: Strings) {
    && StringFits(x.certPrincipals) && StringFits(x.forceCommand)
    && StringFits(x.fromHostCert) && StringFits(x.fromHostKeys)
  }

  function WireTwo(a: Option<CString>, b: Option<CString>): seq<octet>
    requires StringFits(a) && StringFits(b)
  {
    WireNullable(a) + WireNullable(b)
  }

  function WireStrings(x: Strings): seq<octet>
    requires StringsFit(x)
  {
    WireTwo(x.certPrincipals, x.forceCommand) + WireTwo(x.fromHostCert, x.fromHostKeys)
  }

  function GetTwo(s: seq<octet>): Got<(Option<CString>, Option<CString>)> {
    match GetNullable(s)
    case Failed(r, t) => Failed(r, t)
    case Got(a, t) =>
      match GetNullable(t)
      case Failed(r, t) => Failed(r, t)
      case Got(b, t) => Got((a, b), t)
  }

  function GetAllStrings(s: seq<octet>): Got<Strings> {
    match GetTwo(s)
    case Failed(r, t) => Failed(r, t)
    case Got(x, t) =>
      match GetTwo(t)
      case Failed(r, t) => Failed(r, t)
      case Got(y, t) => Got(Strings(x.0, x.1, y.0, y.1), t)
  }

  predicate ListsFit(x: Lists) {
    ListFits(x.env) && ListFits(x.permitopen) && ListFits(x.permitlisten)
  }

  function WireLists(x: Lists): seq<octet>
    requires ListsFit(x)
  {
    WireList(x.env) + WireList(x.permitopen) + WireList(x.permitlisten)
  }

  function GetAllLists(s: seq<octet>): Got<Lists> {
    match GetList(s)
    case Failed(r, t) => Failed(r, t)
    case Got(a, t) =>
      match GetList(t)
      case Failed(r, t) => Failed(r, t)
      case Got(b, t) =>
        match GetList(t)
        case Failed(r, t) => Failed(r, t)
        case Got(c, t) => Got(Lists(a, b, c), t)
  }

  predicate Fits(o: Options) {
    StringsFit(o.strings) && ListsFit(o.lists)
  }

  function WireHead(o: Options): seq<octet> {
    WireFlags(o.flags) + Wire64(o.validBefore) + WireTun(o.tun)
  }

  function WireTail(o: Options): seq<octet>
    requires Fits(o)
  {
    WireStrings(o.strings) + WireLists(o.lists)
  }

  function Wire(o: Options): seq<octet>
    requires Fits(o)
  {
    WireHead(o) + WireTail(o)
  }

  function GetHead(s: seq<octet>): Got<(Flags, u64, i32)> {
    match GetFlags(s)
    case Failed(r, t) => Failed(r, t)
    case Got(flags, t) =>
      match Get64(t)
      case Failed(r, t) => Failed(r, t)
      case Got(validBefore, t) =>
        match GetTun(t)
        case Failed(r, t) => Failed(r, t)
        case Got(tun, t) => Got((flags, validBefore, tun), t)
  }

  function GetTail(s: seq<octet>): Got<(Strings, Lists)> {
    match GetAllStrings(s)
    case Failed(r, t) => Failed(r, t)
    case Got(strings, t) =>
      match GetAllLists(t)
      case Failed(r, t) => Failed(r, t)
      case Got(lists, t) => Got((strings, lists), t)
  }

  /** A failed read leaves what was not consumed before the failure. */
  function Parse(s: seq<octet>): Got<Options> {
    match GetHead(s)
    case Failed(r, t) => Failed(r, t)
    case Got(h, t) =>
      match GetTail(t)
      case Failed(r, t) => Failed(r, t)
      case Got(x, t) => Got(Options(h.0, h.1, h.2, x.0, x.1), t)
  }

  // ----- round trips -----

  function NarrowFlags(f: Flags): Flags {
    Flags(Byte(f.portForwarding), Byte(f.agentForwarding), Byte(f.x11Forwarding), Byte(f.pty), Byte(f.userRc),
          Byte(f.restricted), Byte(f.certAuthority), Byte(f.noUserPresence), Byte(f.requireVerify))
  }

  /** What a record becomes on the wire: flags lose all but a byte, odd device numbers become 0. */
  function Narrow(o: Options): Options {
    Options(NarrowFlags(o.flags), o.validBefore, if o.tun < -1 then 0 else o.tun, o.strings, o.lists)
  }

  predicate ByteFlag(x: i32) {
    0 <= x < 256
  }

  predicate InRange(o: Options) {
    var f := o.flags;
    && o.tun >= -1
    && ByteFlag(f.portForwarding) && ByteFlag(f.agentForwarding) && ByteFlag(f.x11Forwarding)
    && ByteFlag(f.pty) && ByteFlag(f.userRc) && ByteFlag(f.restricted)
    && ByteFlag(f.certAuthority) && ByteFlag(f.noUserPresence) && ByteFlag(f.requireVerify)
  }

  lemma TunBack(tun: i32, rest: seq<octet>)
    ensures GetTun(WireTun(tun) + rest) == Got(if tun < -1 then 0 else tun, rest)
  {
    var f, v := if tun == -1 then 1 else 0, if tun < 0 then 0 else tun;
    assert WireTun(tun) + rest == [f] + (Wire32(v) + rest);
    assert (WireTun(tun) + rest)[1..] == Wire32(v) + rest;
    Wire32Back(v, rest);
  }

  lemma TwoBack(a: Option<CString>, b: Option<CString>, rest: seq<octet>)
    requires StringFits(a) && StringFits(b)
    ensures GetTwo(WireTwo(a, b) + rest) == Got((a, b), rest)
  {
    Regroup(WireNullable(a), WireNullable(b), rest);
    WireNullableBack(a, WireNullable(b) + rest);
    WireNullableBack(b, rest);
  }

  lemma StringsBack(x: Strings, rest: seq<octet>)
    requires StringsFit(x)
    ensures GetAllStrings(WireStrings(x) + rest) == Got(x, rest)
  {
    var w := WireTwo(x.fromHostCert, x.fromHostKeys);
    Regroup(WireTwo(x.certPrincipals, x.forceCommand), w, rest);
    TwoBack(x.certPrincipals, x.forceCommand, w + rest);
    TwoBack(x.fromHostCert, x.fromHostKeys, rest);
  }

  lemma ListsBack(x: Lists, rest: seq<octet>)
    requires ListsFit(x)
    ensures GetAllLists(WireLists(x) + rest) == Got(x, rest)
  {
    var c := WireList(x.permitlisten) + rest;
    var b := WireList(x.permitopen) + c;
    assert WireLists(x) + rest == WireList(x.env) + b;
    WireListBack(x.env, b);
    WireListBack(x.permitopen, c);
    WireListBack(x.permitlisten, rest);
  }

  lemma FlagsBack(f: Flags, rest: seq<octet>)
    ensures GetFlags(WireFlags(f) + rest) == Got(NarrowFlags(f), rest)
  {
    assert (WireFlags(f) + rest)[9..] == rest;
  }

  lemma HeadBack(o: Options, rest: seq<octet>)
    ensures GetHead(WireHead(o) + rest) == Got((NarrowFlags(o.flags), o.validBefore, Narrow(o).tun), rest)
  {
    var b := WireTun(o.tun) + rest;
    assert WireHead(o) + rest == WireFlags(o.flags) + (Wire64(o.validBefore) + b);
    FlagsBack(o.flags, Wire64(o.validBefore) + b);
    Wire64Back(o.validBefore, b);
    TunBack(o.tun, rest);
  }

  lemma TailBack(o: Options, rest: seq<octet>)
    requires Fits(o)
    ensures GetTail(WireTail(o) + rest) == Got((o.strings, o.lists), rest)
  {
    Regroup(WireStrings(o.strings), WireLists(o.lists), rest);
    StringsBack(o.strings, WireLists(o.lists) + rest);
    ListsBack(o.lists, rest);
  }

  /** Reading what was written gives the narrowed record and leaves exactly what follows it. */
  lemma ParseWire(o: Options, rest: seq<octet>)
    requires Fits(o)
    ensures Parse(Wire(o) + rest) == Got(Narrow(o), rest)
  {
    Regroup(WireHead(o), WireTail(o), rest);
    HeadBack(o, WireTail(o) + rest);
    TailBack(o, rest);
  }

  lemma NarrowIff(o: Options)
    ensures Narrow(o) == o <==> InRange(o)
  {
  }

  /** A record survives the trip exactly when its flags are bytes and its device number is at least -1. */
  lemma RoundTripIff(o: Options, rest: seq<octet>)
    requires Fits(o)
    ensures Parse(Wire(o) + rest) == Got(o, rest) <==> InRange(o)
  {
    var p := Parse(Wire(o) + rest);
    assert p == Got(Narrow(o), rest) by { ParseWire(o, rest); }
    NarrowIff(o);
  }

  // ----- records that were read -----

  lemma {:induction false} GetStringsSize(s: seq<octet>, n: nat)
    requires GetStrings(s, n).Got?
    ensures var g := GetStrings(s, n); Each(g.value) && |s| <= BUF_MAX ==> |Strung(g.value)| + |g.rest| <= |s|
    ensures Each(GetStrings(s, n).value)
    decreases n
  {
    if n > 0 {
      GetStringsSize(s, n - 1);
      var before, after := GetStrings(s, n - 1), GetStrings(s, n);
      var a, v := before.value, after.value[|before.value|];
      assert after.value == a + [v] && (a + [v])[..|a|] == a;
    }
  }

  lemma GetListFits(s: seq<octet>)
    requires GetList(s).Got?
    ensures ListFits(GetList(s).value)
  {
    var n := Get32(s);
    var b := GetString(n.rest);
    GetStringsSize(b.value, n.value);
  }

  lemma GetNullableFits(s: seq<octet>)
    requires GetNullable(s).Got?
    ensures StringFits(GetNullable(s).value)
  {
  }

  lemma GetTwoFits(s: seq<octet>)
    requires GetTwo(s).Got?
    ensures StringFits(GetTwo(s).value.0) && StringFits(GetTwo(s).value.1)
  {
    GetNullableFits(s);
    GetNullableFits(GetNullable(s).rest);
  }

  lemma GetListsFit(s: seq<octet>)
    requires GetAllLists(s).Got?
    ensures ListsFit(GetAllLists(s).value)
  {
    GetListFits(s);
    GetListFits(GetList(s).rest);
    GetListFits(GetList(GetList(s).rest).rest);
  }

  lemma GetTailFits(s: seq<octet>)
    requires GetTail(s).Got?
    ensures StringsFit(GetTail(s).value.0) && ListsFit(GetTail(s).value.1)
  {
    GetTwoFits(s);
    GetTwoFits(GetTwo(s).rest);
    GetListsFit(GetAllStrings(s).rest);
  }

  lemma GetHeadBytes(s: seq<octet>)
    requires GetHead(s).Got?
    ensures NarrowFlags(GetHead(s).value.0) == GetHead(s).value.0
  {
  }

  /** A record that was read can be written, and reads the same again exactly when its device number is at least -1. */
  lemma RereadIff(s: seq<octet>, rest: seq<octet>)
    requires Parse(s).Got?
    ensures var o := Parse(s).value;
            Fits(o) && (Parse(Wire(o) + rest) == Got(o, rest) <==> o.tun >= -1)
  {
    var o := Parse(s).value;
    GetTailFits(GetHead(s).rest);
    ParseWire(o, rest);
    GetHeadBytes(s);
    assert Narrow(o) == o <==> o.tun >= -1;
  }

  /** A device number of 2^31 on the wire is read as a negative one, which is written back as 0. */
  lemma HighDeviceBecomesZero(o: Options)
    requires Fits(o)
    ensures var s := WireFlags(o.flags) + Wire64(o.validBefore) + ([0] + Wire32(0x8000_0000)) + WireTail(o);
            && Parse(s).Got? && Parse(s).rest == [] && Parse(s).value.tun == -0x8000_0000
            && Fits(Parse(s).value)
            && Parse(Wire(Parse(s).value) + []) == Got(Parse(s).value.(tun := 0), [])
  {
    var device: seq<octet> := [0] + Wire32(0x8000_0000);
    var head, tail := WireFlags(o.flags) + Wire64(o.validBefore), WireTail(o);
    var s := head + device + tail;
    DeviceHead(o, tail);
    assert tail == WireTail(o) + [];
    TailBack(o, []);
    var p := Parse(s).value;
    RereadIff(s, []);
    ParseWire(p, []);
    GetHeadBytes(s);
  }

  lemma DeviceHead(o: Options, tail: seq<octet>)
    ensures GetHead(WireFlags(o.flags) + Wire64(o.validBefore) + ([0] + Wire32(0x8000_0000)) + tail)
            == Got((NarrowFlags(o.flags), o.validBefore, -0x8000_0000), tail)
  {
    var device: seq<octet> := [0] + Wire32(0x8000_0000);
    var b := device + tail;
    assert WireFlags(o.flags) + Wire64(o.validBefore) + device + tail
           == WireFlags(o.flags) + (Wire64(o.validBefore) + b);
    FlagsBack(o.flags, Wire64(o.validBefore) + b);
    Wire64Back(o.validBefore, b);
    assert b[1..] == Wire32(0x8000_0000) + tail;
    Wire32Back(0x8000_0000, tail);
  }

  /** No record's bytes begin another's: equal streams carry equal records and equal remainders. */
  lemma WireIsPrefixFree(o: Options, p: Options, rest: seq<octet>, rest2: seq<octet>)
    requires Fits(o) && Fits(p) && Wire(o) + rest == Wire(p) + rest2
    ensures Narrow(o) == Narrow(p) && rest == rest2
  {
    ParseWire(o, rest);
    ParseWire(p, rest2);
  }

  // ----- records for an untrusted peer -----

  const YES: CString := [121, 101, 115]
  const TRUE: CString := [116, 114, 117, 101]

  /** The record an untrusted peer is shown: no strings, no arrays, only that there are some. */
  function Shown(o: Options, untrusted: bool): Options {
    if untrusted then o.(strings := Strings(Some(YES), Some(TRUE), None, None), lists := Lists([], [], [])) else o
  }

  function Text(s: string): seq<octet>
    ensures |Text(s)| == |s|
  {
    seq(|s|, i requires 0 <= i < |s| => s[i] as int % 256)
  }

  /**
   An untrusted peer reads the flags and numbers, and for the texts the same two words and nothing
   else, whatever they are; so records that differ in texts only look the same to it.
   */
  lemma UntrustedRecord(o: Options, rest: seq<octet>) returns (yes: CString, yep: CString)
    ensures yes == Text("yes") && yep == Text("true")
    ensures Fits(Shown(o, true))
    ensures Parse(Wire(Shown(o, true)) + rest) ==
            Got(Options(NarrowFlags(o.flags), o.validBefore, if o.tun < -1 then 0 else o.tun,
                        Strings(Some(yes), Some(yep), None, None), Lists([], [], [])), rest)
    ensures forall p: Options :: p.flags == o.flags && p.validBefore == o.validBefore && p.tun == o.tun ==>
              Fits(Shown(p, true)) && Wire(Shown(p, true)) == Wire(Shown(o, true))
  {
    yes, yep := YES, TRUE;
    assert Text("yes") == YES && Text("true") == TRUE;
    ParseWire(Shown(o, true), rest);
  }

  /** A trusted peer is shown the record itself. */
  lemma TrustedRecord(o: Options, rest: seq<octet>)
    requires Fits(o)
    ensures Parse(Wire(Shown(o, false)) + rest) == Got(Narrow(o), rest)
  {
    ParseWire(o, rest);
  }

  // ----- where each number is -----

  lemma Pieces(w: seq<octet>, f: seq<octet>, n: seq<octet>, t: seq<octet>, rest: seq<octet>)
    requires w == f + n + t + rest && |f| == 9 && |n| == 8 && |t| == 5
    ensures |w| >= 22 && w[..9] == f && w[9..17] == n && w[17] == t[0] && w[18..22] == t[1..] && w[22..] == rest
  {
  }

  lemma WirePieces(o: Options)
    requires Fits(o)
    ensures var w := Wire(o);
            && |w| >= 22 && w[..9] == WireFlags(o.flags) && w[9..17] == Wire64(o.validBefore)
            && w[17] == WireTun(o.tun)[0] && w[18..22] == WireTun(o.tun)[1..] && w[22..] == WireTail(o)
  {
    Pieces(Wire(o), WireFlags(o.flags), Wire64(o.validBefore), WireTun(o.tun), WireTail(o));
  }

  /** The flags are bytes 0 to 8, in this order. */
  lemma FlagPositions(o: Options)
    requires Fits(o)
    ensures var w, f := Wire(o), o.flags;
            && |w| >= 22
            && w[..9] == [f.portForwarding % 256, f.agentForwarding % 256, f.x11Forwarding % 256, f.pty % 256,
                          f.userRc % 256, f.restricted % 256, f.certAuthority % 256, f.noUserPresence % 256,
                          f.requireVerify % 256]
  {
    WirePieces(o);
  }

  /** Then come eight bytes and five for the two numbers, the highest byte first. */
  lemma NumberPositions(o: Options)
    requires Fits(o)
    ensures var w := Wire(o);
            && |w| >= 22 && BigEndian(w[9..17]) == o.validBefore
            && w[17] == (if o.tun == -1 then 1 else 0)
            && BigEndian(w[18..22]) == (if o.tun < 0 then 0 else o.tun)
  {
    WirePieces(o);
    Wire64Spells(o.validBefore);
    TunNumber(o.tun);
  }

  lemma Wire64Spells(v: u64)
    ensures BigEndian(Wire64(v)) == v
  {
    WholeWords();
    BytesSpell(Wire64(v), v);
  }

  lemma TunNumber(tun: i32)
    ensures WireTun(tun)[0] == (if tun == -1 then 1 else 0)
    ensures BigEndian(WireTun(tun)[1..]) == if tun < 0 then 0 else tun
  {
    var number: u32 := if tun < 0 then 0 else tun;
    WholeWords();
    BytesSpell(Wire32(number), number);
    assert WireTun(tun)[1..] == Wire32(number);
  }

  /** The texts follow, in this order. */
  lemma TailOrder(o: Options)
    requires Fits(o)
    ensures |Wire(o)| >= 22
    ensures Wire(o)[22..] ==
            WireNullable(o.strings.certPrincipals) + WireNullable(o.strings.forceCommand)
            + WireNullable(o.strings.fromHostCert) + WireNullable(o.strings.fromHostKeys)
            + WireList(o.lists.env) + WireList(o.lists.permitopen) + WireList(o.lists.permitlisten)
  {
    WirePieces(o);
    var x, y := o.strings, o.lists;
    InOrder(WireNullable(x.certPrincipals), WireNullable(x.forceCommand), WireNullable(x.fromHostCert),
            WireNullable(x.fromHostKeys), WireList(y.env), WireList(y.permitopen), WireList(y.permitlisten));
  }

  lemma InOrder(a: seq<octet>, b: seq<octet>, c: seq<octet>, d: seq<octet>, e: seq<octet>, f: seq<octet>, g: seq<octet>)
    ensures (a + b) + (c + d) + (e + f + g) == a + b + c + d + e + f + g
  {
  }

  /** A missing string is a set flag and no bytes; any other is a clear flag, its length and its bytes. */
  lemma NullableForm(v: CString)
    requires |v| <= BUF_MAX - 4
    ensures WireNullable(None) == [1, 0, 0, 0, 0]
    ensures var w := WireNullable(Some(v));
            |w| == 5 + |v| && w[0] == 0 && BigEndian(w[1..5]) == |v| && w[5..] == v
  {
    var w := WireNullable(Some(v));
    WholeWords();
    BytesSpell(Wire32(|v|), |v|);
    assert w[1..5] == Wire32(|v|) && w[5..] == v;
  }

  /** An array is its length, the room its strings take, and the strings. */
  lemma ListForm(a: seq<CString>)
    requires ListFits(a)
    ensures var w := WireList(a);
            && |w| == 8 + |Strung(a)| && BigEndian(w[..4]) == |a| && BigEndian(w[4..8]) == |Strung(a)|
            && w[8..] == Strung(a)
  {
    var w := WireList(a);
    ListLength(a);
    WholeWords();
    BytesSpell(Wire32(|a|), |a|);
    BytesSpell(Wire32(|Strung(a)|), |Strung(a)|);
    assert w[..4] == Wire32(|a|) && w[4..8] == Wire32(|Strung(a)|) && w[8..] == Strung(a);
  }

  // ----- what cannot be read -----

  /** A buffer that ends within the flags is read to its end. */
  lemma ShortRecord(s: seq<octet>)
    requires |s| < 9
    ensures Parse(s) == Failed(MESSAGE_INCOMPLETE, [])
  {
  }

  /** A count above the largest int is invalid, whatever the strings' room, which is consumed before that is noticed. */
  lemma HugeCount(n: u32, b: seq<octet>, rest: seq<octet>)
    requires n > 0x7FFF_FFFF && |b| <= BUF_MAX - 4
    ensures GetList(Wire32(n) + WireString(b) + rest) == Failed(INVALID_FORMAT, rest)
  {
    Regroup(Wire32(n), WireString(b), rest);
    Wire32Back(n, WireString(b) + rest);
    WireStringBack(b, rest);
  }
}
