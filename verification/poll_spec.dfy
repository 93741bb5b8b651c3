/** How the descriptors of all channels are packed into one pollfd array, and what comes back from it. */
module PollSpec {
  import opened Primitives

  datatype Io = Rfd | Wfd | EfdR | EfdW | SockR | SockW
  datatype PollEvent = PollIn | PollOut | PollHup | PollErr | PollNval

  datatype PollFd = PollFd(fd: int, events: set<PollEvent>, revents: set<PollEvent>)

  datatype PollChannel = PollChannel(
    rfd: int, wfd: int, efd: int, sock: int,
    ioWant: set<Io>,
    ioReady: set<Io>,
    pfds: seq<int>)

  // ----- preparing -----

  /** The events that one descriptor is polled for, by the kinds of I/O wanted of it. */
  function Events(c: PollChannel, ins: set<Io>, outs: set<Io>): set<PollEvent> {
    (if ins * c.ioWant != {} then {PollIn} else {}) + (if outs * c.ioWant != {} then {PollOut} else {})
  }

  /** The kinds of I/O served by the entry of the read descriptor, which stands in for any equal to it. */
  function SharedIns(c: PollChannel): set<Io> {
    {Rfd} + (if c.efd == c.rfd then {EfdR} else {}) + (if c.sock == c.rfd then {SockR} else {})
  }

  function SharedOuts(c: PollChannel): set<Io> {
    (if c.wfd == c.rfd then {Wfd} else {}) + (if c.efd == c.rfd then {EfdW} else {}) +
    (if c.sock == c.rfd then {SockW} else {})
  }

  /** The entry for slot `k` of a channel, if any event is armed for it. */
  function Entry(c: PollChannel, k: nat): Option<PollFd>
    requires k < 4
  {
    if k == 0 then
      var ev := Events(c, SharedIns(c), SharedOuts(c));
      if c.rfd != -1 && ev != {} then Some(PollFd(c.rfd, ev, {})) else None
    else if k == 1 then
      var ev := Events(c, {}, {Wfd});
      if c.wfd != -1 && c.rfd != c.wfd && ev != {} then Some(PollFd(c.wfd, ev, {})) else None
    else if k == 2 then
      var ev := Events(c, {EfdR}, {EfdW});
      if c.efd != -1 && c.rfd != c.efd && ev != {} then Some(PollFd(c.efd, ev, {})) else None
    else
      var ev := Events(c, {SockR}, {SockW});
      if c.sock != -1 && c.rfd != c.sock && ev != {} then Some(PollFd(c.sock, {}, {})) else None
  }

  type Table = seq<Option<PollChannel>>

  /** The entries of one channel, by slot; a free slot of the table has none. */
  type Plan = seq<Option<PollFd>>

  function PlanOf(c: Option<PollChannel>): (es: Plan)
    ensures |es| == if c.Some? then 4 else 0
  {
    if c.None? then [] else [Entry(c.value, 0), Entry(c.value, 1), Entry(c.value, 2), Entry(c.value, 3)]
  }

  function Plans(t: Table): (ps: seq<Plan>)
    ensures |ps| == |t| && forall i :: 0 <= i < |t| ==> ps[i] == PlanOf(t[i])
  {
    seq(|t|, i requires 0 <= i < |t| => PlanOf(t[i]))
  }

  /** Number of entries among the first `k` slots. */
  function Count(es: Plan, k: nat): (n: nat)
    requires k <= |es|
    ensures n <= k
  {
    if k == 0 then 0 else Count(es, k - 1) + (if es[k - 1].Some? then 1 else 0)
  }

  function Index(es: Plan, k: nat, p: nat): int
    requires k < |es|
  {
    if es[k].Some? then p + Count(es, k) else -1
  }

  function Indices(es: Plan, p: nat): (r: seq<int>)
    requires |es| == 4
    ensures |r| == 4 && forall k :: 0 <= k < 4 ==> r[k] == Index(es, k, p)
  {
    seq(4, k requires 0 <= k < 4 => Index(es, k, p))
  }

  /** Entries used by the first `i` channels. */
  function Total(ps: seq<Plan>, i: nat): (n: nat)
    requires i <= |ps|
  {
    if i == 0 then 0 else Total(ps, i - 1) + Count(ps[i - 1], |ps[i - 1]|)
  }

  predicate Holds(pfd: seq<PollFd>, i: nat, e: PollFd) {
    i < |pfd| && pfd[i].fd == e.fd && pfd[i].events == e.events
  }

  predicate Filled(es: Plan, p: nat, pfd: seq<PollFd>) {
    forall k :: 0 <= k < |es| && es[k].Some? ==> Holds(pfd, p + Count(es, k), es[k].value)
  }

  predicate FilledAt(ps: seq<Plan>, reserved: nat, pfd: seq<PollFd>, j: nat)
    requires j < |ps|
  {
    Filled(ps[j], reserved + Total(ps, j), pfd)
  }

  predicate FilledUpTo(ps: seq<Plan>, reserved: nat, pfd: seq<PollFd>, i: nat)
    requires i <= |ps|
  {
    forall j :: 0 <= j < i ==> FilledAt(ps, reserved, pfd, j)
  }

  function WithIndices(c: Option<PollChannel>, es: Plan, p: nat): Option<PollChannel>
    requires c.Some? ==> |es| == 4
  {
    if c.None? then None else Some(c.value.(pfds := Indices(es, p)))
  }

  predicate PlansFit(ps: seq<Plan>, before: Table) {
    |ps| == |before| && forall i :: 0 <= i < |ps| ==> |ps[i]| == if before[i].Some? then 4 else 0
  }

  predicate IndexedAt(t: Table, before: Table, ps: seq<Plan>, reserved: nat, j: nat)
    requires PlansFit(ps, before) && |t| == |before| && j < |t|
  {
    t[j] == WithIndices(before[j], ps[j], reserved + Total(ps, j))
  }

  predicate IndexedUpTo(t: Table, before: Table, ps: seq<Plan>, reserved: nat, i: nat)
    requires PlansFit(ps, before) && |t| == |before| && i <= |t|
  {
    && (forall j :: i <= j < |t| ==> t[j] == before[j])
    && forall j :: 0 <= j < i ==> IndexedAt(t, before, ps, reserved, j)
  }

  /** The table after packing: every channel knows its indices, and the array holds its entries there. */
  predicate Packed(t: Table, before: Table, reserved: nat, pfd: seq<PollFd>) {
    && |t| == |before|
    && FilledUpTo(Plans(before), reserved, pfd, |t|)
    && IndexedUpTo(t, before, Plans(before), reserved, |t|)
  }

  lemma {:induction false} CountMonotone(es: Plan, j: nat, k: nat)
    requires j <= k <= |es|
    ensures Count(es, j) <= Count(es, k)
    ensures j < k && es[j].Some? ==> Count(es, j) < Count(es, k)
  {
    if j < k {
      CountMonotone(es, j, k - 1);
    }
  }

  lemma {:induction false} TotalMonotone(ps: seq<Plan>, i: nat, j: nat)
    requires i <= j <= |ps|
    ensures Total(ps, i) <= Total(ps, j)
    ensures i < j ==> Total(ps, i) + Count(ps[i], |ps[i]|) <= Total(ps, j)
  {
    if i < j {
      TotalMonotone(ps, i, j - 1);
    }
  }

  lemma {:induction false} TotalBound(ps: seq<Plan>, i: nat)
    requires i <= |ps| && forall j :: 0 <= j < |ps| ==> |ps[j]| <= 4
    ensures Total(ps, i) <= 4 * i
  {
    if i > 0 {
      TotalBound(ps, i - 1);
    }
  }

  function Put(f: seq<PollFd>, i: nat, e: Option<PollFd>): (g: seq<PollFd>)
    requires i < |f|
    ensures |g| == |f|
  {
    if e.Some? then f[i := e.value] else f
  }

  /** The slots of a channel packed one after the other. */
  function PutAll(es: Plan, p: nat, f: seq<PollFd>, k: nat): (g: seq<PollFd>)
    requires k <= |es| && p + |es| <= |f|
    ensures |g| == |f|
  {
    if k == 0 then f else Put(PutAll(es, p, f, k - 1), p + Count(es, k - 1), es[k - 1])
  }

  lemma {:induction false} PutAllFills(es: Plan, p: nat, f: seq<PollFd>, k: nat)
    requires k <= |es| && p + |es| <= |f|
    ensures forall j :: 0 <= j < k && es[j].Some? ==> Holds(PutAll(es, p, f, k), p + Count(es, j), es[j].value)
    ensures forall m :: 0 <= m < |f| && (m < p || p + Count(es, k) <= m) ==> PutAll(es, p, f, k)[m] == f[m]
  {
    if k > 0 {
      PutAllFills(es, p, f, k - 1);
      forall j | 0 <= j < k && es[j].Some?
        ensures Holds(PutAll(es, p, f, k), p + Count(es, j), es[j].value)
      {
        if j < k - 1 {
          CountMonotone(es, j, k - 1);
        }
      }
    }
  }

  /** Packing the next channel leaves the entries of the earlier ones alone. */
  lemma FillStep(ps: seq<Plan>, reserved: nat, f: seq<PollFd>, i: nat)
    requires i < |ps| && FilledUpTo(ps, reserved, f, i)
    requires reserved + Total(ps, i) + |ps[i]| <= |f|
    ensures FilledUpTo(ps, reserved, PutAll(ps[i], reserved + Total(ps, i), f, |ps[i]|), i + 1)
  {
    var q := reserved + Total(ps, i);
    var g := FillLast(ps[i], q, f);
    forall j | 0 <= j < i
      ensures FilledAt(ps, reserved, g, j)
    {
      FillEarlier(ps, reserved, f, g, i, j, q);
    }
    assert FilledAt(ps, reserved, g, i);
  }

  lemma FillLast(es: Plan, q: nat, f: seq<PollFd>) returns (g: seq<PollFd>)
    requires q + |es| <= |f|
    ensures g == PutAll(es, q, f, |es|) && Filled(es, q, g)
    ensures forall m :: 0 <= m < q ==> g[m] == f[m]
  {
    g := PutAll(es, q, f, |es|);
    PutAllFills(es, q, f, |es|);
  }

  lemma FillEarlier(ps: seq<Plan>, reserved: nat, f: seq<PollFd>, g: seq<PollFd>, i: nat, j: nat, q: nat)
    requires j < i < |ps| && FilledUpTo(ps, reserved, f, i) && |f| == |g|
    requires q == reserved + Total(ps, i) && forall m :: 0 <= m < q && m < |f| ==> g[m] == f[m]
    ensures FilledAt(ps, reserved, g, j)
  {
    assert FilledAt(ps, reserved, f, j);
    TotalMonotone(ps, j, i);
    FilledStable(ps[j], reserved + Total(ps, j), f, g, q);
  }

  lemma FilledStable(es: Plan, p: nat, f: seq<PollFd>, g: seq<PollFd>, q: nat)
    requires Filled(es, p, f) && p + Count(es, |es|) <= q && |f| == |g|
    requires forall m :: 0 <= m < q && m < |f| ==> g[m] == f[m]
    ensures Filled(es, p, g)
  {
    forall k | 0 <= k < |es| && es[k].Some?
      ensures Holds(g, p + Count(es, k), es[k].value)
    {
      CountMonotone(es, k, |es|);
      assert Holds(f, p + Count(es, k), es[k].value);
    }
  }

  function FdOf(c: PollChannel, k: nat): int
    requires k < 4
  {
    if k == 0 then c.rfd else if k == 1 then c.wfd else if k == 2 then c.efd else c.sock
  }

  predicate Places(t: Table, i: nat, k: nat) {
    i < |t| && k < 4 && t[i].Some? && |t[i].value.pfds| == 4 && t[i].value.pfds[k] != -1
  }

  lemma EntryFd(c: PollChannel, k: nat)
    requires k < 4 && PlanOf(Some(c))[k].Some?
    ensures PlanOf(Some(c))[k].value.fd == FdOf(c, k) != -1
    ensures k > 0 ==> FdOf(c, k) != c.rfd
  {
  }

  lemma IndexWithin(ps: seq<Plan>, reserved: nat, pfd: seq<PollFd>, i: nat, k: nat)
    requires FilledUpTo(ps, reserved, pfd, |ps|)
    requires i < |ps| && k < |ps[i]| && ps[i][k].Some?
    ensures var idx := Index(ps[i], k, reserved + Total(ps, i));
            && reserved <= idx < |pfd| && pfd[idx].fd == ps[i][k].value.fd
            && Count(ps[i], k) < Count(ps[i], |ps[i]|)
            && reserved + Total(ps, i) + Count(ps[i], |ps[i]|) <= reserved + Total(ps, |ps|)
  {
    assert FilledAt(ps, reserved, pfd, i);
    assert Holds(pfd, reserved + Total(ps, i) + Count(ps[i], k), ps[i][k].value);
    CountMonotone(ps[i], k, |ps[i]|);
    TotalMonotone(ps, i, |ps|);
  }

  lemma IndexFromPlan(c: Option<PollChannel>, b: Option<PollChannel>, es: Plan, p: nat, k: nat)
    requires b.Some? ==> |es| == 4
    requires c == WithIndices(b, es, p) && c.Some? && k < 4 && c.value.pfds[k] != -1
    ensures b.Some? && es[k].Some? && c.value.pfds[k] == Index(es, k, p)
    ensures c.value == b.value.(pfds := c.value.pfds)
  {
  }

  lemma WithinPlan(t: Table, before: Table, reserved: nat, pfd: seq<PollFd>, i: nat, k: nat, ps: seq<Plan>, idx: int)
    requires Packed(t, before, reserved, pfd) && Places(t, i, k)
    requires ps == Plans(before) && idx == t[i].value.pfds[k]
    ensures |ps| == |t| == |before| && |ps[i]| == 4 && ps[i][k].Some?
    ensures idx == Index(ps[i], k, reserved + Total(ps, i))
    ensures FilledUpTo(ps, reserved, pfd, |ps|)
    ensures before[i].Some? && ps[i] == PlanOf(before[i]) && t[i].value == before[i].value.(pfds := t[i].value.pfds)
  {
    var b, es, p := PackedAs(t, before, reserved, pfd, i, ps);
    PlanPlaces(t[i].value, b, es, p, k);
  }

  lemma PlanPlaces(c: PollChannel, b: Option<PollChannel>, es: Plan, p: nat, k: nat)
    requires |c.pfds| == 4 && k < 4 && c.pfds[k] != -1
    requires |es| == (if b.Some? then 4 else 0) && Some(c) == WithIndices(b, es, p)
    ensures b.Some? && |es| == 4 && es[k].Some? && c.pfds[k] == Index(es, k, p) && c == b.value.(pfds := c.pfds)
  {
    IndexFromPlan(Some(c), b, es, p, k);
  }

  lemma PackedAs(t: Table, before: Table, reserved: nat, pfd: seq<PollFd>, i: nat, ps: seq<Plan>)
    returns (b: Option<PollChannel>, es: Plan, p: nat)
    requires Packed(t, before, reserved, pfd) && ps == Plans(before) && i < |t|
    ensures |ps| == |t| == |before| && FilledUpTo(ps, reserved, pfd, |ps|)
    ensures b == before[i] && es == ps[i] == PlanOf(b) && p == reserved + Total(ps, i)
    ensures |es| == (if b.Some? then 4 else 0) && t[i] == WithIndices(b, es, p)
  {
    PackedAt(t, before, reserved, pfd, i, ps);
    b, es, p := before[i], ps[i], reserved + Total(ps, i);
  }

  lemma PackedAt(t: Table, before: Table, reserved: nat, pfd: seq<PollFd>, i: nat, ps: seq<Plan>)
    requires Packed(t, before, reserved, pfd) && ps == Plans(before) && i < |t|
    ensures |ps| == |t| == |before| && FilledUpTo(ps, reserved, pfd, |ps|) && ps[i] == PlanOf(before[i])
    ensures t[i] == WithIndices(before[i], ps[i], reserved + Total(ps, i))
  {
    IndexedOne(t, before, ps, reserved, i);
  }

  lemma IndexedOne(t: Table, before: Table, ps: seq<Plan>, reserved: nat, i: nat)
    requires PlansFit(ps, before) && |t| == |before| && i < |t| && IndexedUpTo(t, before, ps, reserved, |t|)
    ensures t[i] == WithIndices(before[i], ps[i], reserved + Total(ps, i))
  {
    assert IndexedAt(t, before, ps, reserved, i);
  }

  /** Where one index of one channel comes from. */
  lemma Within(t: Table, before: Table, reserved: nat, pfd: seq<PollFd>, i: nat, k: nat, ps: seq<Plan>, idx: int)
    requires Packed(t, before, reserved, pfd) && Places(t, i, k)
    requires ps == Plans(before) && idx == t[i].value.pfds[k]
    ensures |ps| == |t| && |ps[i]| == 4 && ps[i][k].Some?
    ensures idx == Index(ps[i], k, reserved + Total(ps, i))
    ensures reserved <= idx < reserved + Total(ps, |ps|)
    ensures idx < |pfd| && pfd[idx].fd == FdOf(t[i].value, k) != -1
    ensures k > 0 ==> FdOf(t[i].value, k) != t[i].value.rfd
  {
    WithinPlan(t, before, reserved, pfd, i, k, ps, idx);
    WithinArray(ps, reserved, pfd, i, k, before[i].value, t[i].value, idx);
  }

  lemma WithinArray(ps: seq<Plan>, reserved: nat, pfd: seq<PollFd>, i: nat, k: nat, b: PollChannel, c: PollChannel,
                    idx: int)
    requires FilledUpTo(ps, reserved, pfd, |ps|) && i < |ps| && |ps[i]| == 4 && k < 4
    requires ps[i] == PlanOf(Some(b)) && ps[i][k].Some? && c == b.(pfds := c.pfds)
    requires idx == Index(ps[i], k, reserved + Total(ps, i))
    ensures reserved <= idx < reserved + Total(ps, |ps|)
    ensures idx < |pfd| && pfd[idx].fd == FdOf(c, k) != -1
    ensures k > 0 ==> FdOf(c, k) != c.rfd
  {
    IndexWithin(ps, reserved, pfd, i, k);
    EntryFd(b, k);
    SameFds(b, c, k);
  }

  lemma SameFds(c: PollChannel, d: PollChannel, k: nat)
    requires k < 4 && d == c.(pfds := d.pfds)
    ensures FdOf(d, k) == FdOf(c, k) && d.rfd == c.rfd
  {
  }

  /**
   Every index a channel holds lies in the active part of the array and names that channel's
   descriptor.
   */
  lemma PackingIsSound(t: Table, before: Table, reserved: nat, pfd: seq<PollFd>, i: nat, k: nat)
    requires Packed(t, before, reserved, pfd) && Places(t, i, k)
    ensures var idx := t[i].value.pfds[k];
            && reserved <= idx < reserved + Total(Plans(before), |before|)
            && idx < |pfd| && pfd[idx].fd == FdOf(t[i].value, k)
  {
    Within(t, before, reserved, pfd, i, k, Plans(before), t[i].value.pfds[k]);
  }

  /** No two channels, nor two descriptors of one channel, hold the same index. */
  lemma PackingIsInjective(t: Table, before: Table, reserved: nat, pfd: seq<PollFd>, i: nat, k: nat, j: nat, m: nat)
    requires Packed(t, before, reserved, pfd) && Places(t, i, k) && Places(t, j, m)
    requires i != j || k != m
    ensures t[i].value.pfds[k] != t[j].value.pfds[m]
  {
    IndexedDiffer(t, before, Plans(before), reserved, i, k, j, m);
  }

  lemma IndexedDiffer(t: Table, before: Table, ps: seq<Plan>, reserved: nat, i: nat, k: nat, j: nat, m: nat)
    requires PlansFit(ps, before) && |t| == |before| && IndexedUpTo(t, before, ps, reserved, |t|)
    requires Places(t, i, k) && Places(t, j, m) && (i != j || k != m)
    ensures t[i].value.pfds[k] != t[j].value.pfds[m]
  {
    Located(t, before, ps, reserved, i, k);
    Located(t, before, ps, reserved, j, m);
    IndicesDiffer(ps, reserved, i, k, j, m);
  }

  lemma Located(t: Table, before: Table, ps: seq<Plan>, reserved: nat, i: nat, k: nat)
    requires PlansFit(ps, before) && |t| == |before| && IndexedUpTo(t, before, ps, reserved, |t|)
    requires Places(t, i, k)
    ensures i < |ps| && k < |ps[i]| && ps[i][k].Some?
    ensures t[i].value.pfds[k] == Index(ps[i], k, reserved + Total(ps, i))
  {
    IndexedOne(t, before, ps, reserved, i);
    IndexFromPlan(t[i], before[i], ps[i], reserved + Total(ps, i), k);
  }

  lemma IndicesDiffer(ps: seq<Plan>, reserved: nat, i: nat, k: nat, j: nat, m: nat)
    requires i < |ps| && k < |ps[i]| && ps[i][k].Some?
    requires j < |ps| && m < |ps[j]| && ps[j][m].Some?
    ensures Index(ps[i], k, reserved + Total(ps, i)) == Index(ps[j], m, reserved + Total(ps, j)) ==> i == j && k == m
  {
    CountMonotone(ps[i], k, |ps[i]|);
    CountMonotone(ps[j], m, |ps[j]|);
    if i < j {
      TotalMonotone(ps, i, j);
    } else if j < i {
      TotalMonotone(ps, j, i);
    } else if k < m {
      CountMonotone(ps[i], k, m);
    } else if m < k {
      CountMonotone(ps[i], m, k);
    }
  }

  // ----- after poll -----

  /** One test of one descriptor; None is the fatal error. */
  function FdReady(c: PollChannel, p: int, pfd: seq<PollFd>, fd: int, mask: PollEvent, ready: Io): Option<PollChannel> {
    if fd == -1 then Some(c)
    else if p == -1 || !(0 <= p < |pfd|) then None
    else if pfd[p].fd != fd then None
    else if PollNval in pfd[p].revents then None
    else if pfd[p].revents * {mask, PollHup, PollErr} != {} then Some(c.(ioReady := c.ioReady + ({ready} * c.ioWant)))
    else Some(c)
  }

  function Then(c: Option<PollChannel>, guard: bool, p: int, pfd: seq<PollFd>, fd: int, mask: PollEvent, ready: Io)
    : Option<PollChannel>
  {
    if c.None? || !guard then c else FdReady(c.value, p, pfd, fd, mask, ready)
  }

  /** Descriptors as channels hold them: whatever shares the read descriptor is matched by the write descriptor. */
  predicate GoodLayout(c: PollChannel) {
    c.rfd != -1 && c.wfd != -1 && c.rfd != c.wfd ==> c.rfd != c.efd && c.rfd != c.sock
  }

  predicate OwnWfd(c: PollChannel)
    requires |c.pfds| == 4
  {
    c.wfd != -1 && c.wfd != c.rfd && c.pfds[1] != -1
  }

  predicate OwnEfd(c: PollChannel)
    requires |c.pfds| == 4
  {
    c.efd != -1 && c.efd != c.rfd && c.pfds[2] != -1
  }

  predicate OwnSock(c: PollChannel)
    requires |c.pfds| == 4
  {
    c.sock != -1 && c.sock != c.rfd && c.pfds[3] != -1
  }

  /** The tests for the read descriptor itself and for a write descriptor equal to it. */
  function SharedFirst(c: PollChannel, pfd: seq<PollFd>): Option<PollChannel>
    requires |c.pfds| == 4
  {
    var r := c.rfd != -1 && c.pfds[0] != -1;
    var c1 := Then(Some(c.(ioReady := {})), r, c.pfds[0], pfd, c.rfd, PollIn, Rfd);
    Then(c1, r && c.rfd == c.wfd, c.pfds[0], pfd, c.rfd, PollOut, Wfd)
  }

  /** The tests on the read descriptor's entry, for it and whatever shares it. */
  function SharedPart(c: PollChannel, pfd: seq<PollFd>): Option<PollChannel>
    requires |c.pfds| == 4
  {
    var r := c.rfd != -1 && c.pfds[0] != -1;
    var c2 := SharedFirst(c, pfd);
    var c4 := Both(c, c2, r && c.rfd == c.efd, 0, pfd, EfdR, EfdW);
    Both(c, c4, r && c.rfd == c.sock, 0, pfd, SockR, SockW)
  }

  /** The tests on the entries of the other descriptors. */
  function OwnPart(c: PollChannel, d: Option<PollChannel>, pfd: seq<PollFd>): Option<PollChannel>
    requires |c.pfds| == 4
  {
    var d1 := Then(d, OwnWfd(c), c.pfds[1], pfd, c.wfd, PollOut, Wfd);
    var d3 := Both(c, d1, OwnEfd(c), 2, pfd, EfdR, EfdW);
    Both(c, d3, OwnSock(c), 3, pfd, SockR, SockW)
  }

  function AfterPollOne(c: PollChannel, pfd: seq<PollFd>): Option<PollChannel>
    requires |c.pfds| == 4
  {
    if !GoodLayout(c) then None else OwnPart(c, SharedPart(c, pfd), pfd)
  }

  /** The slot whose entry speaks for this kind of I/O. */
  function SlotFor(c: PollChannel, io: Io): nat {
    match io
    case Rfd => 0
    case Wfd => if c.wfd == c.rfd then 0 else 1
    case EfdR => if c.efd == c.rfd then 0 else 2
    case EfdW => if c.efd == c.rfd then 0 else 2
    case SockR => if c.sock == c.rfd then 0 else 3
    case SockW => if c.sock == c.rfd then 0 else 3
  }

  function MaskFor(io: Io): PollEvent {
    if io == Rfd || io == EfdR || io == SockR then PollIn else PollOut
  }

  /** A kind of I/O is ready when it was wanted and its descriptor's entry reported its event, or a hang-up or error. */
  predicate Reported(c: PollChannel, io: Io, pfd: seq<PollFd>)
    requires |c.pfds| == 4
  {
    var idx := c.pfds[SlotFor(c, io)];
    io in c.ioWant && 0 <= idx < |pfd| && pfd[idx].revents * {MaskFor(io), PollHup, PollErr} != {}
  }

  /** What the tests rely on for one channel: its indices name its descriptors, and none is invalid. */
  predicate Consistent(c: PollChannel, pfd: seq<PollFd>) {
    && |c.pfds| == 4
    && forall k :: 0 <= k < 4 && c.pfds[k] != -1 ==>
         && 0 <= c.pfds[k] < |pfd|
         && pfd[c.pfds[k]].fd == FdOf(c, k) != -1
         && PollNval !in pfd[c.pfds[k]].revents
         && (k > 0 ==> FdOf(c, k) != c.rfd)
  }

  lemma TestOne(c: PollChannel, p: int, pfd: seq<PollFd>, fd: int, mask: PollEvent, ready: Io)
    requires 0 <= p < |pfd| && pfd[p].fd == fd && PollNval !in pfd[p].revents
    ensures FdReady(c, p, pfd, fd, mask, ready).Some?
    ensures FdReady(c, p, pfd, fd, mask, ready).value.(ioReady := c.ioReady) == c
    ensures FdReady(c, p, pfd, fd, mask, ready).value.ioReady ==
            if fd != -1 && pfd[p].revents * {mask, PollHup, PollErr} != {} && ready in c.ioWant
            then c.ioReady + {ready} else c.ioReady
  {
    if ready in c.ioWant {
      assert {ready} * c.ioWant == {ready};
    } else {
      assert {ready} * c.ioWant == {};
    }
  }

  /** A test that is guarded by a valid entry reports exactly what that entry says. */
  lemma TestGuarded(c: PollChannel, d: Option<PollChannel>, guard: bool, k: nat, pfd: seq<PollFd>,
                    mask: PollEvent, io: Io)
    requires Consistent(c, pfd) && k < 4
    requires d.Some? && d.value.(ioReady := c.ioReady) == c
    requires guard ==> c.pfds[k] != -1
    ensures var e := Then(d, guard, c.pfds[k], pfd, FdOf(c, k), mask, io);
            && e.Some? && e.value.(ioReady := c.ioReady) == c
            && e.value.ioReady == d.value.ioReady + (if guard && Hit(c, k, pfd, mask, io) then {io} else {})
  {
    if guard {
      TestOne(d.value, c.pfds[k], pfd, FdOf(c, k), mask, io);
    }
  }

  predicate Hit(c: PollChannel, k: nat, pfd: seq<PollFd>, mask: PollEvent, io: Io)
    requires Consistent(c, pfd) && k < 4
  {
    io in c.ioWant && c.pfds[k] != -1 && pfd[c.pfds[k]].revents * {mask, PollHup, PollErr} != {}
  }

  /** The slot of a descriptor that is not shared with the read descriptor. */
  function OwnSlot(io: Io): nat {
    if io == Rfd then 0 else if io == Wfd then 1 else if io == EfdR || io == EfdW then 2 else 3
  }

  /** Two tests of one entry, for reading and for writing. */
  lemma TestPair(c: PollChannel, d: Option<PollChannel>, guard: bool, k: nat, pfd: seq<PollFd>, a: Io, b: Io)
    requires Consistent(c, pfd) && k < 4
    requires d.Some? && d.value.(ioReady := c.ioReady) == c
    requires guard ==> c.pfds[k] != -1
    ensures var e := Both(c, d, guard, k, pfd, a, b);
            && e.Some? && e.value.(ioReady := c.ioReady) == c
            && forall io :: io in e.value.ioReady <==>
                            || io in d.value.ioReady
                            || (guard && (io == a || io == b) && Hit(c, k, pfd, TestMask(io, a), io))
    requires a != b
  {
    TestGuarded(c, d, guard, k, pfd, PollIn, a);
    TestGuarded(c, Then(d, guard, c.pfds[k], pfd, FdOf(c, k), PollIn, a), guard, k, pfd, PollOut, b);
  }

  function TestMask(io: Io, a: Io): PollEvent {
    if io == a then PollIn else PollOut
  }

  function Both(c: PollChannel, d: Option<PollChannel>, guard: bool, k: nat, pfd: seq<PollFd>, a: Io, b: Io)
    : Option<PollChannel>
    requires |c.pfds| == 4 && k < 4
  {
    Then(Then(d, guard, c.pfds[k], pfd, FdOf(c, k), PollIn, a), guard, c.pfds[k], pfd, FdOf(c, k), PollOut, b)
  }

  lemma FirstTests(c: PollChannel, pfd: seq<PollFd>)
    requires Consistent(c, pfd)
    ensures var d := SharedFirst(c, pfd);
            && d.Some? && d.value.(ioReady := c.ioReady) == c
            && forall io :: io in d.value.ioReady <==>
                            (io == Rfd || (io == Wfd && c.rfd == c.wfd)) && Hit(c, 0, pfd, MaskFor(io), io)
  {
    var r := c.rfd != -1 && c.pfds[0] != -1;
    var c0 := Some(c.(ioReady := {}));
    TestGuarded(c, c0, r, 0, pfd, PollIn, Rfd);
    var c1 := Then(c0, r, c.pfds[0], pfd, c.rfd, PollIn, Rfd);
    TestGuarded(c, c1, r && c.rfd == c.wfd, 0, pfd, PollOut, Wfd);
  }

  /** What the tests on the entry of the read descriptor make ready. */
  lemma SharedTests(c: PollChannel, pfd: seq<PollFd>)
    requires Consistent(c, pfd)
    ensures var d := SharedPart(c, pfd);
            && d.Some? && d.value.(ioReady := c.ioReady) == c
            && forall io :: io in d.value.ioReady <==> SlotFor(c, io) == 0 && Hit(c, 0, pfd, MaskFor(io), io)
  {
    var r := c.rfd != -1 && c.pfds[0] != -1;
    FirstTests(c, pfd);
    var c2 := SharedFirst(c, pfd);
    TestPair(c, c2, r && c.rfd == c.efd, 0, pfd, EfdR, EfdW);
    var c4 := Both(c, c2, r && c.rfd == c.efd, 0, pfd, EfdR, EfdW);
    TestPair(c, c4, r && c.rfd == c.sock, 0, pfd, SockR, SockW);
  }

  /** What the tests on the entries of the other descriptors add. */
  lemma OwnTests(c: PollChannel, d: Option<PollChannel>, pfd: seq<PollFd>)
    requires Consistent(c, pfd)
    requires d.Some? && d.value.(ioReady := c.ioReady) == c
    ensures var e := OwnPart(c, d, pfd);
            && e.Some? && e.value.(ioReady := c.ioReady) == c
            && forall io :: io in e.value.ioReady <==>
                            io in d.value.ioReady || (io != Rfd && Hit(c, OwnSlot(io), pfd, MaskFor(io), io))
  {
    TestGuarded(c, d, OwnWfd(c), 1, pfd, PollOut, Wfd);
    var d1 := Then(d, OwnWfd(c), c.pfds[1], pfd, c.wfd, PollOut, Wfd);
    TestPair(c, d1, OwnEfd(c), 2, pfd, EfdR, EfdW);
    var d3 := Both(c, d1, OwnEfd(c), 2, pfd, EfdR, EfdW);
    TestPair(c, d3, OwnSock(c), 3, pfd, SockR, SockW);
  }

  /** The indices a packed channel leaves unset where a descriptor is shared. */
  predicate SharedUnset(c: PollChannel)
    requires |c.pfds| == 4
  {
    && (c.wfd == c.rfd ==> c.pfds[1] == -1)
    && (c.efd == c.rfd ==> c.pfds[2] == -1)
    && (c.sock == c.rfd ==> c.pfds[3] == -1)
  }

  /**
   Nothing fatal happens to a consistent channel, and exactly the wanted kinds of I/O whose
   entries reported them become ready.
   */
  lemma ReadyIsExact(c: PollChannel, pfd: seq<PollFd>)
    requires Consistent(c, pfd) && GoodLayout(c)
    ensures AfterPollOne(c, pfd).Some?
    ensures AfterPollOne(c, pfd).value.(ioReady := c.ioReady) == c
    ensures forall io :: io in AfterPollOne(c, pfd).value.ioReady <==> Reported(c, io, pfd)
    ensures AfterPollOne(c, pfd).value.ioReady <= c.ioWant
  {
    SharedTests(c, pfd);
    OwnTests(c, SharedPart(c, pfd), pfd);
    assert SharedUnset(c);
    forall io: Io
      ensures io in AfterPollOne(c, pfd).value.ioReady <==> Reported(c, io, pfd)
    {
      assert SlotFor(c, io) == 0 || SlotFor(c, io) == OwnSlot(io);
      assert io != Rfd && SlotFor(c, io) == 0 ==> c.pfds[OwnSlot(io)] == -1;
      assert Reported(c, io, pfd) <==> Hit(c, SlotFor(c, io), pfd, MaskFor(io), io);
    }
  }

  /** After packing, and whatever events poll reports, the channel's tests are consistent. */
  lemma PackedIsConsistent(t: Table, before: Table, reserved: nat, pfd: seq<PollFd>, i: nat)
    requires Packed(t, before, reserved, pfd) && i < |t| && t[i].Some?
    requires forall m :: 0 <= m < |pfd| ==> PollNval !in pfd[m].revents
    ensures Consistent(t[i].value, pfd)
  {
    var c := t[i].value;
    assert IndexedAt(t, before, Plans(before), reserved, i);
    forall k | 0 <= k < 4 && c.pfds[k] != -1
      ensures 0 <= c.pfds[k] < |pfd|
      ensures pfd[c.pfds[k]].fd == FdOf(c, k) != -1
      ensures k > 0 ==> FdOf(c, k) != c.rfd
    {
      Within(t, before, reserved, pfd, i, k, Plans(before), c.pfds[k]);
    }
  }

  // ----- what is fatal -----

  /** An entry that a test accepts: it is there, is that descriptor's, and poll did not call the descriptor invalid. */
  predicate SoundEntry(c: PollChannel, k: nat, pfd: seq<PollFd>)
    requires |c.pfds| == 4 && k < 4
  {
    var idx := c.pfds[k];
    0 <= idx < |pfd| && pfd[idx].fd == FdOf(c, k) && PollNval !in pfd[idx].revents
  }

  predicate Tested(c: PollChannel, k: nat)
    requires |c.pfds| == 4 && k < 4
  {
    c.pfds[k] != -1 && FdOf(c, k) != -1 && (k == 0 || FdOf(c, k) != c.rfd)
  }

  predicate Unsound(c: PollChannel, k: nat, pfd: seq<PollFd>)
    requires |c.pfds| == 4 && k < 4
  {
    Tested(c, k) && !SoundEntry(c, k, pfd)
  }

  lemma TestFatal(c: PollChannel, d: Option<PollChannel>, guard: bool, k: nat, pfd: seq<PollFd>,
                  mask: PollEvent, io: Io)
    requires |c.pfds| == 4 && k < 4 && (guard ==> Tested(c, k))
    ensures Then(d, guard, c.pfds[k], pfd, FdOf(c, k), mask, io).None? <==> d.None? || (guard && Unsound(c, k, pfd))
  {
  }

  lemma BothFatal(c: PollChannel, d: Option<PollChannel>, guard: bool, k: nat, pfd: seq<PollFd>, a: Io, b: Io)
    requires |c.pfds| == 4 && k < 4 && (guard ==> Tested(c, k))
    ensures Both(c, d, guard, k, pfd, a, b).None? <==> d.None? || (guard && Unsound(c, k, pfd))
  {
    TestFatal(c, d, guard, k, pfd, PollIn, a);
    TestFatal(c, Then(d, guard, c.pfds[k], pfd, FdOf(c, k), PollIn, a), guard, k, pfd, PollOut, b);
  }

  lemma SharedFatal(c: PollChannel, pfd: seq<PollFd>)
    requires |c.pfds| == 4
    ensures SharedPart(c, pfd).None? <==> Unsound(c, 0, pfd)
  {
    var r := c.rfd != -1 && c.pfds[0] != -1;
    var c0 := Some(c.(ioReady := {}));
    TestFatal(c, c0, r, 0, pfd, PollIn, Rfd);
    var c1 := Then(c0, r, c.pfds[0], pfd, c.rfd, PollIn, Rfd);
    TestFatal(c, c1, r && c.rfd == c.wfd, 0, pfd, PollOut, Wfd);
    var c2 := Then(c1, r && c.rfd == c.wfd, c.pfds[0], pfd, c.rfd, PollOut, Wfd);
    BothFatal(c, c2, r && c.rfd == c.efd, 0, pfd, EfdR, EfdW);
    BothFatal(c, Both(c, c2, r && c.rfd == c.efd, 0, pfd, EfdR, EfdW), r && c.rfd == c.sock, 0, pfd, SockR, SockW);
  }

  lemma OwnFatal(c: PollChannel, d: Option<PollChannel>, pfd: seq<PollFd>)
    requires |c.pfds| == 4
    ensures OwnPart(c, d, pfd).None? <==>
            d.None? || Unsound(c, 1, pfd) || Unsound(c, 2, pfd) || Unsound(c, 3, pfd)
  {
    TestFatal(c, d, OwnWfd(c), 1, pfd, PollOut, Wfd);
    var d1 := Then(d, OwnWfd(c), c.pfds[1], pfd, c.wfd, PollOut, Wfd);
    BothFatal(c, d1, OwnEfd(c), 2, pfd, EfdR, EfdW);
    BothFatal(c, Both(c, d1, OwnEfd(c), 2, pfd, EfdR, EfdW), OwnSock(c), 3, pfd, SockR, SockW);
  }

  /**
   The tests are fatal exactly for a bad layout, or for an index beyond the array, of another
   descriptor's entry, or of one that poll called invalid.
   */
  lemma FatalIff(c: PollChannel, pfd: seq<PollFd>)
    requires |c.pfds| == 4
    ensures AfterPollOne(c, pfd).None? <==> !GoodLayout(c) || exists k :: 0 <= k < 4 && Unsound(c, k, pfd)
  {
    SharedFatal(c, pfd);
    OwnFatal(c, SharedPart(c, pfd), pfd);
  }

  /** What poll does to the array: it reports events, and touches nothing else. */
  predicate Polled(f: seq<PollFd>, g: seq<PollFd>) {
    |f| == |g| && forall m :: 0 <= m < |f| ==> g[m].fd == f[m].fd && g[m].events == f[m].events
  }

  lemma PollKeepsPacking(t: Table, before: Table, reserved: nat, f: seq<PollFd>, g: seq<PollFd>)
    requires Packed(t, before, reserved, f) && Polled(f, g)
    ensures Packed(t, before, reserved, g)
  {
    var ps := Plans(before);
    forall j | 0 <= j < |ps|
      ensures FilledAt(ps, reserved, g, j)
    {
      assert FilledAt(ps, reserved, f, j);
      SameFilled(ps[j], reserved + Total(ps, j), f, g);
    }
  }

  lemma SameFilled(es: Plan, p: nat, f: seq<PollFd>, g: seq<PollFd>)
    requires Filled(es, p, f) && Polled(f, g)
    ensures Filled(es, p, g)
  {
  }

  /** The active part of a packed array holds all that packing put there. */
  lemma PackedInActive(t: Table, before: Table, reserved: nat, pfd: seq<PollFd>, active: nat)
    requires Packed(t, before, reserved, pfd)
    requires active == reserved + Total(Plans(before), |before|) <= |pfd|
    ensures Packed(t, before, reserved, pfd[..active])
  {
    forall j | 0 <= j < |before|
      ensures FilledAt(Plans(before), reserved, pfd[..active], j)
    {
      FilledInActive(Plans(before), reserved, pfd, active, j);
    }
  }

  lemma FilledInActive(ps: seq<Plan>, reserved: nat, pfd: seq<PollFd>, active: nat, j: nat)
    requires FilledUpTo(ps, reserved, pfd, |ps|) && j < |ps|
    requires active == reserved + Total(ps, |ps|) <= |pfd|
    ensures FilledAt(ps, reserved, pfd[..active], j)
  {
    forall k | 0 <= k < |ps[j]| && ps[j][k].Some?
      ensures Holds(pfd[..active], reserved + Total(ps, j) + Count(ps[j], k), ps[j][k].value)
    {
      IndexWithin(ps, reserved, pfd, j, k);
      assert FilledAt(ps, reserved, pfd, j);
    }
  }

  /**
   One round, with the tests seeing the active part of the array only: whatever poll reports for
   valid descriptors, they end in a fatal error exactly for a channel with a bad layout.
   */
  lemma RoundIsSafe(t: Table, before: Table, reserved: nat, f: seq<PollFd>, g: seq<PollFd>, i: nat, active: nat)
    requires Packed(t, before, reserved, f) && Polled(f, g)
    requires active == reserved + Total(Plans(before), |before|) <= |g|
    requires forall m :: 0 <= m < active ==> PollNval !in g[m].revents
    requires i < |t| && t[i].Some? && |t[i].value.pfds| == 4
    ensures AfterPollOne(t[i].value, g[..active]).None? <==> !GoodLayout(t[i].value)
  {
    PollKeepsPacking(t, before, reserved, f, g);
    PackedInActive(t, before, reserved, g, active);
    PackedIsConsistent(t, before, reserved, g[..active], i);
    if GoodLayout(t[i].value) {
      ReadyIsExact(t[i].value, g[..active]);
    }
  }

  // ----- registration -----

  /** The descriptors that channel_register_fds gives a channel. */
  function Registered(c: PollChannel, rfd: int, wfd: int, efd: int): PollChannel {
    c.(rfd := rfd, wfd := wfd, efd := efd, sock := if rfd == wfd then rfd else -1)
  }

  /** Registration makes a bad layout exactly when the extended descriptor is a read descriptor that is not written. */
  lemma RegisteredLayoutIff(c: PollChannel, rfd: int, wfd: int, efd: int)
    ensures GoodLayout(Registered(c, rfd, wfd, efd)) <==> rfd == -1 || wfd == -1 || rfd == wfd || efd != rfd
  {
  }

  /** What changes the descriptors of a channel after its creation. */
  datatype FdOp =
    | Register(rfd: int, wfd: int, efd: int)   // a session or a forwarding gets its descriptors
    | Reconnect(sock: int)                     // the next address of a pending connect is tried
    | Close(fd: int)                           // channel_close_fd, through any of the four fields

  /** channel_close_fd: every field that holds the descriptor is cleared, with its I/O and its index. */
  function CloseFd(c: PollChannel, fd: int): PollChannel
    requires |c.pfds| == 4
  {
    if fd == -1 then c
    else
      var gone := (if c.rfd == fd then {Rfd} else {}) + (if c.wfd == fd then {Wfd} else {})
                  + (if c.efd == fd then {EfdR, EfdW} else {}) + (if c.sock == fd then {SockR, SockW} else {});
      c.(rfd := Unless(c.rfd, fd), wfd := Unless(c.wfd, fd), efd := Unless(c.efd, fd), sock := Unless(c.sock, fd),
         ioWant := c.ioWant - gone, ioReady := c.ioReady - gone,
         pfds := [if c.rfd == fd then -1 else c.pfds[0], if c.wfd == fd then -1 else c.pfds[1],
                  if c.efd == fd then -1 else c.pfds[2], if c.sock == fd then -1 else c.pfds[3]])
  }

  function Unless(held: int, fd: int): int {
    if held == fd then -1 else held
  }

  function AfterFdOp(c: PollChannel, op: FdOp): (d: PollChannel)
    requires |c.pfds| == 4
    ensures |d.pfds| == 4
  {
    match op
    case Register(rfd, wfd, efd) => Registered(c, rfd, wfd, efd)
    case Reconnect(sock) => c.(sock := sock, rfd := sock, wfd := sock)
    case Close(fd) => CloseFd(c, fd)
  }

  function AfterFdOps(c: PollChannel, ops: seq<FdOp>): (d: PollChannel)
    requires |c.pfds| == 4
    ensures |d.pfds| == 4
  {
    if ops == [] then c else AfterFdOp(AfterFdOps(c, ops[..|ops| - 1]), ops[|ops| - 1])
  }

  /** An open socket is also the descriptor for reading and for writing. */
  predicate SockShared(c: PollChannel) {
    c.sock == -1 || (c.rfd == c.sock && c.wfd == c.sock)
  }

  predicate GoodRegistration(op: FdOp) {
    op.Register? ==> op.rfd == -1 || op.wfd == -1 || op.rfd == op.wfd || op.efd != op.rfd
  }

  /** Creation registers descriptors first; whatever happens to them later, an open socket stays shared. */
  lemma {:induction false} SocketStaysShared(c: PollChannel, ops: seq<FdOp>)
    requires |c.pfds| == 4 && ops != [] && ops[0].Register?
    ensures SockShared(AfterFdOps(c, ops))
    decreases |ops|
  {
    var init := ops[..|ops| - 1];
    if init != [] {
      SocketStaysShared(c, init);
    }
  }

  /** The layout stays good through every history whose registrations are good, closing and reconnecting included. */
  lemma {:induction false} LayoutStaysGood(c: PollChannel, ops: seq<FdOp>)
    requires |c.pfds| == 4 && ops != [] && ops[0].Register?
    requires forall i :: 0 <= i < |ops| ==> GoodRegistration(ops[i])
    ensures GoodLayout(AfterFdOps(c, ops))
    decreases |ops|
  {
    var init := ops[..|ops| - 1];
    assert GoodRegistration(ops[|ops| - 1]);
    if init != [] {
      LayoutStaysGood(c, init);
    }
  }

  predicate SameDescriptors(c: PollChannel, d: PollChannel) {
    c.rfd == d.rfd && c.wfd == d.wfd && c.efd == d.efd && c.sock == d.sock
  }

  /** Whatever its history of good registrations, closes and reconnects, a channel survives the round. */
  lemma RegisteredRoundIsSafe(t: Table, before: Table, reserved: nat, f: seq<PollFd>, g: seq<PollFd>, i: nat,
                              active: nat, c: PollChannel, ops: seq<FdOp>)
    requires Packed(t, before, reserved, f) && Polled(f, g)
    requires active == reserved + Total(Plans(before), |before|) <= |g|
    requires forall m :: 0 <= m < active ==> PollNval !in g[m].revents
    requires i < |t| && t[i].Some? && |t[i].value.pfds| == 4
    requires |c.pfds| == 4 && ops != [] && ops[0].Register?
    requires forall j :: 0 <= j < |ops| ==> GoodRegistration(ops[j])
    requires SameDescriptors(t[i].value, AfterFdOps(c, ops))
    ensures AfterPollOne(t[i].value, g[..active]).Some?
  {
    LayoutStaysGood(c, ops);
    RoundIsSafe(t, before, reserved, f, g, i, active);
  }

  // ----- what is armed -----

  function FdFor(c: PollChannel, io: Io): int {
    match io
    case Rfd => c.rfd
    case Wfd => c.wfd
    case EfdR => c.efd
    case EfdW => c.efd
    case SockR => c.sock
    case SockW => c.sock
  }

  predicate Armed(c: PollChannel, io: Io) {
    var e := PlanOf(Some(c))[SlotFor(c, io)];
    e.Some? && e.value.fd == FdFor(c, io) && MaskFor(io) in e.value.events
  }

  /** Wanted I/O on an open descriptor has an entry, which polls for it unless it is that of an unshared socket. */
  lemma ArmedIff(c: PollChannel, io: Io)
    requires io in c.ioWant && FdFor(c, io) != -1
    ensures PlanOf(Some(c))[SlotFor(c, io)].Some?
    ensures Armed(c, io) <==> !(io in {SockR, SockW} && c.sock != c.rfd)
  {
    var outs, ins := SharedOuts(c), SharedIns(c);
    assert MaskFor(io) == PollIn && SlotFor(c, io) == 0 ==> io in ins * c.ioWant;
    assert MaskFor(io) == PollOut && SlotFor(c, io) == 0 ==> io in outs * c.ioWant;
    assert io == Wfd ==> io in {Wfd} * c.ioWant;
    assert io == EfdR ==> io in {EfdR} * c.ioWant;
    assert io == EfdW ==> io in {EfdW} * c.ioWant;
    assert io == SockR ==> io in {SockR} * c.ioWant;
    assert io == SockW ==> io in {SockW} * c.ioWant;
  }

  /** Closing clears every field that holds the descriptor, with its wishes and its index, and nothing else. */
  lemma CloseForgets(c: PollChannel, fd: int)
    requires |c.pfds| == 4 && fd != -1
    ensures var d := CloseFd(c, fd);
            && |d.pfds| == 4
            && (forall k :: 0 <= k < 4 ==> FdOf(d, k) == if FdOf(c, k) == fd then -1 else FdOf(c, k))
            && (forall k :: 0 <= k < 4 ==> d.pfds[k] == if FdOf(c, k) == fd then -1 else c.pfds[k])
            && (forall io :: io in d.ioWant <==> io in c.ioWant && FdFor(c, io) != fd)
            && (forall io :: io in d.ioReady <==> io in c.ioReady && FdFor(c, io) != fd)
  {
  }

  /**
   Whatever has happened to a channel's descriptors since its creation, every wanted kind of I/O
   on an open one is polled for: the entry without events is never made.
   */
  lemma WantedIsArmed(c: PollChannel, ops: seq<FdOp>, d: PollChannel, io: Io)
    requires |c.pfds| == 4 && ops != [] && ops[0].Register?
    requires SameDescriptors(d, AfterFdOps(c, ops))
    requires io in d.ioWant && FdFor(d, io) != -1
    ensures Armed(d, io)
  {
    SocketStaysShared(c, ops);
    ArmedIff(d, io);
  }

  /** A wanted kind of I/O on an open descriptor whose entry is that of slot `k`. */
  predicate Asked(c: PollChannel, io: Io, k: nat) {
    io in c.ioWant && SlotFor(c, io) == k && FdFor(c, io) != -1
  }

  /** A slot's entry polls for an event exactly because some kind of I/O that is wanted there needs it. */
  predicate PolledFor(c: PollChannel, k: nat, ev: PollEvent) {
    exists io :: Asked(c, io, k) && MaskFor(io) == ev
  }

  lemma EventsAre(c: PollChannel, ins: set<Io>, outs: set<Io>, k: nat, ev: PollEvent)
    requires k < 4
    requires forall io :: io in c.ioWant ==> (io in ins <==> Asked(c, io, k) && MaskFor(io) == PollIn)
    requires forall io :: io in c.ioWant ==> (io in outs <==> Asked(c, io, k) && MaskFor(io) == PollOut)
    ensures ev in Events(c, ins, outs) <==> PolledFor(c, k, ev)
  {
    assert forall io :: io in ins * c.ioWant <==> Asked(c, io, k) && MaskFor(io) == PollIn;
    assert forall io :: io in outs * c.ioWant <==> Asked(c, io, k) && MaskFor(io) == PollOut;
  }

  /**
   A descriptor has an entry exactly if some I/O is wanted of it, and the entry polls for what that
   I/O needs and for nothing else; only that of a socket of its own polls for nothing.
   */
  lemma PolledForIff(c: PollChannel, k: nat)
    requires k < 4
    ensures var e := PlanOf(Some(c))[k];
            && (e.Some? <==> exists io :: Asked(c, io, k))
            && (e.Some? ==> e.value.fd == FdOf(c, k) && e.value.revents == {})
            && (e.Some? && k < 3 ==> forall ev :: ev in e.value.events <==> PolledFor(c, k, ev))
            && (e.Some? && k == 3 ==> e.value.events == {})
  {
    var ins, outs := InsOf(c, k), OutsOf(c, k);
    if FdOf(c, k) != -1 && (k == 0 || FdOf(c, k) != c.rfd) {
      SlotKinds(c, k);
      forall ev: PollEvent
        ensures ev in Events(c, ins, outs) <==> PolledFor(c, k, ev)
      {
        EventsAre(c, ins, outs, k, ev);
      }
      if io: Io :| Asked(c, io, k) {
        assert PolledFor(c, k, MaskFor(io));
      }
    } else {
      assert forall io :: !Asked(c, io, k);
    }
  }

  function InsOf(c: PollChannel, k: nat): set<Io> {
    if k == 0 then SharedIns(c) else if k == 1 then {} else if k == 2 then {EfdR} else {SockR}
  }

  function OutsOf(c: PollChannel, k: nat): set<Io> {
    if k == 0 then SharedOuts(c) else if k == 1 then {Wfd} else if k == 2 then {EfdW} else {SockW}
  }

  lemma SlotKinds(c: PollChannel, k: nat)
    requires k < 4 && FdOf(c, k) != -1 && (k == 0 || FdOf(c, k) != c.rfd)
    ensures forall io :: io in InsOf(c, k) <==> SlotFor(c, io) == k && FdFor(c, io) != -1 && MaskFor(io) == PollIn
    ensures forall io :: io in OutsOf(c, k) <==> SlotFor(c, io) == k && FdFor(c, io) != -1 && MaskFor(io) == PollOut
  {
  }
}
