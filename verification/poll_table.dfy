/** The packing and unpacking loops around poll, over the channel table and the pollfd array. */
module PollTable {
  import opened Primitives
  import opened PollSpec

  const INT_MAX: nat := 0x7fff_ffff

  class Poller {
    var channels: array<Option<PollChannel>>
    var pfd: array<PollFd>

    ghost predicate Valid()
      reads this, channels
    {
      && channels as object != pfd
      && forall i :: 0 <= i < channels.Length && channels[i].Some? ==> |channels[i].value.pfds| == 4
    }

    constructor (chans: array<Option<PollChannel>>, pfds: array<PollFd>)
      requires chans as object != pfds
      requires forall i :: 0 <= i < chans.Length && chans[i].Some? ==> |chans[i].value.pfds| == 4
      ensures channels == chans && pfd == pfds && Valid()
    {
      channels, pfd := chans, pfds;
    }

    /** Packs one entry; the index it got, or -1 when no event is armed. */
    method PackSlot(e: Option<PollFd>, p: nat) returns (index: int, next: nat)
      requires p < pfd.Length
      modifies pfd
      ensures next == if e.Some? then p + 1 else p
      ensures index == if e.Some? then p else -1
      ensures pfd[..] == Put(old(pfd[..]), p, e)
    {
      if e.Some? {
        pfd[p] := e.value;
        return p, p + 1;
      }
      return -1, p;
    }

    /** The four slots of one channel, packed from index `p` on. */
    method PackFour(es: Plan, p: nat) returns (pfds: seq<int>, next: nat)
      requires |es| == 4 && p + 4 <= pfd.Length
      modifies pfd
      ensures next == p + Count(es, 4) && pfds == Indices(es, p)
      ensures pfd[..] == PutAll(es, p, old(pfd[..]), 4)
    {
      ghost var f := pfd[..];
      var i0, p1 := PackSlot(es[0], p);
      assert p1 == p + Count(es, 1) && pfd[..] == PutAll(es, p, f, 1);
      var i1, p2 := PackSlot(es[1], p1);
      assert p2 == p + Count(es, 2) && pfd[..] == PutAll(es, p, f, 2);
      var i2, p3 := PackSlot(es[2], p2);
      assert p3 == p + Count(es, 3) && pfd[..] == PutAll(es, p, f, 3);
      var i3, p4 := PackSlot(es[3], p3);
      return [i0, i1, i2, i3], p4;
    }

    /** Packs the descriptors of one channel from index `p` on; not ok stands for the fatal error. */
    method PreparePollfd(i: nat, p: nat, npfd: nat) returns (ok: bool, next: nat)
      requires Valid() && i < channels.Length && npfd <= pfd.Length
      modifies channels, pfd
      ensures Valid()
      ensures ok <==> old(channels[i]).None? || p + 4 <= npfd
      ensures !ok ==> channels[..] == old(channels[..]) && pfd[..] == old(pfd[..])
      ensures ok ==> var es := PlanOf(old(channels[i]));
                     && next == p + Count(es, |es|)
                     && channels[..] == old(channels[..])[i := WithIndices(old(channels[i]), es, p)]
                     && (es == [] ==> pfd[..] == old(pfd[..]))
                     && (es != [] ==> p + |es| <= pfd.Length && pfd[..] == PutAll(es, p, old(pfd[..]), |es|))
    {
      if channels[i].None? {
        return true, p;
      }
      if p + 4 > npfd {
        return false, p;
      }
      var c := channels[i].value;
      var pfds, end := PackFour(PlanOf(Some(c)), p);
      channels[i] := Some(c.(pfds := pfds));
      return true, end;
    }

    /** Clears the flags of the last poll and lets the handlers say what they want. */
    method SetWants(wants: seq<set<Io>>)
      requires Valid() && |wants| == channels.Length
      modifies channels
      ensures Valid()
      ensures forall i :: 0 <= i < channels.Length ==>
                channels[i] == if old(channels[i]).Some?
                               then Some(old(channels[i]).value.(ioWant := wants[i], ioReady := {})) else None
    {
      var i := 0;
      while i < channels.Length
        invariant 0 <= i <= channels.Length && Valid()
        invariant forall j :: 0 <= j < i ==>
                    channels[j] == if old(channels[j]).Some?
                                   then Some(old(channels[j]).value.(ioWant := wants[j], ioReady := {})) else None
        invariant forall j :: i <= j < channels.Length ==> channels[j] == old(channels[j])
        modifies channels
      {
        if channels[i].Some? {
          channels[i] := Some(channels[i].value.(ioWant := wants[i], ioReady := {}));
        }
        i := i + 1;
      }
    }

    /** Room for four entries a channel above the reserved ones; a larger array keeps what the old one held. */
    method Allocate(reserved: nat) returns (ok: bool)
      requires Valid() && reserved < INT_MAX / 4
      modifies this`pfd
      ensures Valid() && channels == old(channels)
      ensures ok <==> channels.Length < INT_MAX / 4 - reserved
      ensures ok ==> reserved + 4 * channels.Length <= pfd.Length
      ensures pfd == old(pfd) || fresh(pfd)
      ensures old(pfd[..]) <= pfd[..]
    {
      if channels.Length >= INT_MAX / 4 - reserved {
        return false;
      }
      var npfd := reserved + channels.Length * 4;
      if npfd > pfd.Length {
        var grown := new PollFd[npfd](_ => PollFd(-1, {}, {}));
        for i := 0 to pfd.Length
          invariant grown[..i] == pfd[..i]
          modifies grown
        {
          grown[i] := pfd[i];
        }
        assert grown[..pfd.Length] == pfd[..];
        pfd := grown;
      }
      return true;
    }

    /** channel_prepare_poll: the packing never runs out of room once the array is allocated. */
    method PreparePoll(reserved: nat, wants: seq<set<Io>>) returns (ok: bool, active: nat, ghost before: Table)
      requires Valid() && |wants| == channels.Length && reserved < INT_MAX / 4
      modifies this`pfd, channels, pfd
      ensures Valid() && channels == old(channels)
      ensures ok <==> channels.Length < INT_MAX / 4 - reserved
      ensures ok ==> Packed(channels[..], before, reserved, pfd[..])
                     && |before| == channels.Length
                     && active == reserved + Total(Plans(before), |before|) <= pfd.Length
      ensures ok ==> forall m :: 0 <= m < reserved && m < old(pfd.Length) ==> pfd[m] == old(pfd[m])
      ensures ok ==> forall i :: 0 <= i < channels.Length ==>
                       before[i] == if old(channels[i]).Some?
                                    then Some(old(channels[i]).value.(ioWant := wants[i], ioReady := {})) else None
    {
      SetWants(wants);
      before := channels[..];
      ok := Allocate(reserved);
      active := reserved;
      if !ok {
        return;
      }
      var npfd := reserved + channels.Length * 4;
      active := PackAll(reserved, npfd, before, Plans(before));
    }

    /** The packing loop over all channels. */
    method PackAll(reserved: nat, npfd: nat, ghost before: Table, ghost ps: seq<Plan>) returns (p: nat)
      requires Valid() && channels[..] == before && ps == Plans(before)
      requires npfd == reserved + 4 * channels.Length <= pfd.Length
      modifies channels, pfd
      ensures Valid() && p == reserved + Total(ps, |ps|) <= pfd.Length
      ensures FilledUpTo(ps, reserved, pfd[..], |ps|)
      ensures IndexedUpTo(channels[..], before, ps, reserved, |ps|)
      ensures forall m :: 0 <= m < reserved ==> pfd[m] == old(pfd[m])
    {
      p := reserved;
      var i := 0;
      while i < channels.Length
        invariant 0 <= i <= channels.Length && Valid()
        invariant p == reserved + Total(ps, i)
        invariant FilledUpTo(ps, reserved, pfd[..], i)
        invariant IndexedUpTo(channels[..], before, ps, reserved, i)
        invariant forall m :: 0 <= m < reserved ==> pfd[m] == old(pfd[m])
        modifies channels, pfd
      {
        p := PackOne(i, p, reserved, npfd, before, ps);
        i := i + 1;
      }
      TotalBound(ps, |ps|);
    }

    method PackOne(i: nat, p: nat, reserved: nat, npfd: nat, ghost before: Table, ghost ps: seq<Plan>)
      returns (next: nat)
      requires Valid() && i < channels.Length == |before| && ps == Plans(before)
      requires npfd == reserved + 4 * channels.Length <= pfd.Length && p == reserved + Total(ps, i)
      requires FilledUpTo(ps, reserved, pfd[..], i) && IndexedUpTo(channels[..], before, ps, reserved, i)
      modifies channels, pfd
      ensures Valid() && next == reserved + Total(ps, i + 1)
      ensures FilledUpTo(ps, reserved, pfd[..], i + 1)
      ensures IndexedUpTo(channels[..], before, ps, reserved, i + 1)
      ensures forall m :: 0 <= m < reserved ==> pfd[m] == old(pfd[m])
    {
      ghost var f, t := pfd[..], channels[..];
      TotalBound(ps, i);
      var fits;
      fits, next := PreparePollfd(i, p, npfd);
      assert fits;
      AfterOne(t, f, channels[..], pfd[..], before, ps, reserved, i);
      if ps[i] != [] { ReservedStays(ps[i], p, f, pfd[..], reserved); }
    }

    lemma ReservedStays(es: Plan, p: nat, f: seq<PollFd>, g: seq<PollFd>, reserved: nat)
      requires reserved <= p && p + |es| <= |f| && g == PutAll(es, p, f, |es|)
      ensures forall m :: 0 <= m < reserved ==> g[m] == f[m]
    {
      PutAllFills(es, p, f, |es|);
    }

    lemma AfterOne(t: Table, f: seq<PollFd>, u: Table, g: seq<PollFd>, before: Table, ps: seq<Plan>,
                   reserved: nat, i: nat)
      requires PlansFit(ps, before) && |t| == |before| && i < |t|
      requires FilledUpTo(ps, reserved, f, i) && IndexedUpTo(t, before, ps, reserved, i)
      requires var p := reserved + Total(ps, i);
               && u == t[i := WithIndices(before[i], ps[i], p)]
               && (ps[i] == [] ==> g == f)
               && (ps[i] != [] ==> p + |ps[i]| <= |f| && g == PutAll(ps[i], p, f, |ps[i]|))
      ensures FilledUpTo(ps, reserved, g, i + 1) && IndexedUpTo(u, before, ps, reserved, i + 1)
    {
      if ps[i] != [] {
        FillStep(ps, reserved, f, i);
      }
      forall j | 0 <= j < i + 1
        ensures IndexedAt(u, before, ps, reserved, j)
      {
        assert j < i ==> IndexedAt(t, before, ps, reserved, j);
      }
    }

    /** channel_after_poll on the active entries: what each channel may do now; not ok stands for a fatal error. */
    method AfterPoll(active: nat) returns (ok: bool)
      requires Valid() && active <= pfd.Length
      modifies channels
      ensures ok <==> forall i :: 0 <= i < channels.Length && old(channels[i]).Some? ==>
                        AfterPollOne(old(channels[i]).value, pfd[..active]).Some?
      ensures ok ==> forall i :: 0 <= i < channels.Length ==>
                channels[i] ==
                if old(channels[i]).Some? then AfterPollOne(old(channels[i]).value, pfd[..active]) else None
    {
      var i := 0;
      var f := pfd[..active];
      while i < channels.Length
        invariant 0 <= i <= channels.Length && Valid()
        invariant forall j :: 0 <= j < i && old(channels[j]).Some? ==> AfterPollOne(old(channels[j]).value, f).Some?
        invariant forall j :: 0 <= j < i ==>
                    channels[j] == if old(channels[j]).Some? then AfterPollOne(old(channels[j]).value, f) else None
        invariant forall j :: i <= j < channels.Length ==> channels[j] == old(channels[j])
        modifies channels
      {
        if channels[i].Some? {
          var r := AfterPollOne(channels[i].value, f);
          if r.None? {
            return false;
          }
          KeepsPfds(channels[i].value, f);
          channels[i] := r;
        }
        i := i + 1;
      }
      return true;
    }

    lemma BothPfds(c: PollChannel, d: Option<PollChannel>, g: bool, k: nat, f: seq<PollFd>, a: Io, b: Io)
      requires |c.pfds| == 4 && k < 4
      requires d.Some? ==> d.value.pfds == c.pfds
      ensures var r := Both(c, d, g, k, f, a, b); r.Some? ==> r.value.pfds == c.pfds
    {
    }

    lemma KeepsPfds(c: PollChannel, f: seq<PollFd>)
      requires |c.pfds| == 4
      ensures AfterPollOne(c, f).Some? ==> AfterPollOne(c, f).value.pfds == c.pfds
    {
      var r := c.rfd != -1 && c.pfds[0] != -1;
      var c1 := Then(Some(c.(ioReady := {})), r, c.pfds[0], f, c.rfd, PollIn, Rfd);
      var c2 := Then(c1, r && c.rfd == c.wfd, c.pfds[0], f, c.rfd, PollOut, Wfd);
      BothPfds(c, c2, r && c.rfd == c.efd, 0, f, EfdR, EfdW);
      BothPfds(c, Both(c, c2, r && c.rfd == c.efd, 0, f, EfdR, EfdW), r && c.rfd == c.sock, 0, f, SockR, SockW);
      var d := SharedPart(c, f);
      var d1 := Then(d, OwnWfd(c), c.pfds[1], f, c.wfd, PollOut, Wfd);
      BothPfds(c, d1, OwnEfd(c), 2, f, EfdR, EfdW);
      BothPfds(c, Both(c, d1, OwnEfd(c), 2, f, EfdR, EfdW), OwnSock(c), 3, f, SockR, SockW);
    }
  }
}
