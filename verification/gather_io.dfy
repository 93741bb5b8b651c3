/**
 Writing a list of buffers completely, resuming after partial writes, interruptions and
 descriptors that are not ready.
 */
module GatherIo {
  import opened Primitives

  type Chunk = seq<byte>

  /** What one call of the write function did. */
  datatype Outcome = Moved(n: nat) | Interrupted | NotReady | Broken

  /** How the whole operation ended; Pending when it was still running after the calls observed. */
  datatype End = Finished | Invalid | Eintr | Error | Closed | Fault | Pending

  function Flatten(iov: seq<Chunk>): seq<byte> {
    if iov == [] then [] else iov[0] + Flatten(iov[1..])
  }

  /** The bytes of all chunks, less the first `n`: what is left after `n` were moved. */
  predicate Left(all: seq<byte>, n: nat, iov: seq<Chunk>) {
    n <= |all| && all[n..] == Flatten(iov)
  }

  lemma Cut(a: seq<byte>, b: seq<byte>, k: nat)
    requires k <= |a|
    ensures (a + b)[..k] == a[..k] && (a + b)[k..] == a[k..] + b
  {
  }

  lemma DropFront(all: seq<byte>, n: nat, iov: seq<Chunk>, k: nat)
    requires Left(all, n, iov) && iov != [] && k <= |iov[0]|
    ensures Left(all, n + k, [iov[0][k..]] + iov[1..])
    ensures k == |iov[0]| ==> Left(all, n + k, iov[1..])
  {
    var cut, rest := iov[0][k..], iov[1..];
    Cut(iov[0], Flatten(rest), k);
    assert |all[n..]| >= |iov[0]|;
    assert all[n + k..] == all[n..][k..];
    assert ([cut] + rest)[1..] == rest;
    assert k == |iov[0]| ==> cut + Flatten(rest) == Flatten(rest);
  }

  /** An operation that starts with an empty chunk stops at once; otherwise it stops when all is moved. */
  function WhenFinished(iov: seq<Chunk>): nat {
    if iov != [] && iov[0] == [] then 0 else |Flatten(iov)|
  }

  lemma SkipOne(all: seq<byte>, n: nat, iov: seq<Chunk>, at: nat)
    requires at < |iov| && Left(all, n, iov[at..])
    ensures Left(all, n + |iov[at]|, iov[at + 1..])
  {
    DropFront(all, n, iov[at..], |iov[at]|);
    assert iov[at..][1..] == iov[at + 1..];
  }

  /** Skips the chunks that `res` more bytes complete; empty ones in between go with them. */
  method SkipDone(iov: seq<Chunk>, res: nat, ghost all: seq<byte>, ghost pos: nat) returns (at: nat, rem: nat)
    requires Left(all, pos, iov)
    ensures at <= |iov| && rem <= res
    ensures at < |iov| ==> rem < |iov[at]|
    ensures Left(all, pos + res - rem, iov[at..])
  {
    at, rem := 0, res;
    assert iov[0..] == iov;
    while at < |iov| && rem >= |iov[at]|
      invariant at <= |iov| && rem <= res
      invariant Left(all, pos + res - rem, iov[at..])
    {
      SkipOne(all, pos + res - rem, iov, at);
      rem := rem - |iov[at]|;
      at := at + 1;
    }
  }

  /** Between calls: `pos` bytes were moved, the rest is what the chunks still hold. */
  predicate Going(input: seq<Chunk>, pos: nat, moved: seq<byte>, rest: seq<Chunk>) {
    && Left(Flatten(input), pos, rest)
    && moved == Flatten(input)[..pos]
    && (pos == 0 ==> rest == input)
    && (pos > 0 ==> input != [] && input[0] != [] && (rest != [] ==> rest[0] != []))
  }

  lemma Grow(all: seq<byte>, pos: nat, n: nat)
    requires pos + n <= |all|
    ensures all[..pos] + all[pos..][..n] == all[..pos + n]
  {
  }

  lemma Moves(input: seq<Chunk>, pos: nat, moved: seq<byte>, rest: seq<Chunk>, n: nat, next: seq<Chunk>)
    requires Going(input, pos, moved, rest) && rest != [] && rest[0] != [] && 0 < n <= |Flatten(rest)|
    requires Left(Flatten(input), pos + n, next) && (next != [] ==> next[0] != [])
    ensures Going(input, pos + n, moved + Flatten(rest)[..n], next)
  {
    Grow(Flatten(input), pos, n);
  }

  lemma Ended(input: seq<Chunk>, pos: nat, moved: seq<byte>, rest: seq<Chunk>)
    requires Going(input, pos, moved, rest)
    ensures |moved| == pos && moved <= Flatten(input) && |Flatten(rest)| == |Flatten(input)| - pos
    ensures (rest == [] || rest[0] == []) ==> pos == WhenFinished(input)
    ensures rest != [] && rest[0] != [] ==> pos < |Flatten(input)|
  {
    assert |Flatten(input)[pos..]| == |Flatten(rest)|;
  }

  /** After a call moved `n` bytes: done chunks are skipped, a chunk done in part is cut in place. */
  method Advance(iov: array<Chunk>, first: nat, n: nat, ghost input: seq<Chunk>, ghost pos: nat, ghost moved: seq<byte>)
    returns (fault: bool, at: nat)
    requires first < iov.Length && iov[first] != [] && Going(input, pos, moved, iov[first..]) && n > 0
    modifies iov
    ensures fault <==> n > |Flatten(input)| - pos
    ensures !fault ==> at <= iov.Length
                       && Going(input, pos + n, moved + Flatten(old(iov[first..]))[..n], iov[at..])
  {
    ghost var all, before := Flatten(input), iov[first..];
    Ended(input, pos, moved, before);
    var skip, rem := SkipDone(iov[first..], n, all, pos);
    at := first + skip;
    assert iov[at..] == before[skip..];
    if at < iov.Length {
      DropFront(all, pos + n - rem, iov[at..], rem);
    }
    if rem > 0 && (at >= iov.Length || rem > |iov[at]|) {
      return true, at;
    }
    if at < iov.Length {
      ghost var rest := iov[at + 1..];
      iov[at] := iov[at][rem..];
      assert iov[at..] == [iov[at]] + rest;
    }
    fault := false;
    Moves(input, pos, moved, before, n, iov[at..]);
  }

  // ----- the reference: a count of bytes and the calls -----

  /** Where an operation stands: how it ended (Pending while it runs), bytes handed over, calls made. */
  datatype Progress = Progress(end: End, moved: nat, calls: nat)

  /** One call with everything that is left offered to it, and the callback after it. */
  function AfterCall(call: (nat, nat) -> Outcome, stop: nat -> bool, total: nat, moved: nat, k: nat): Progress
    requires moved <= total
  {
    match call(k, total - moved)
    case Interrupted => Progress(if stop(k) then Eintr else Pending, moved, k + 1)
    case NotReady => Progress(Pending, moved, k + 1)
    case Broken => Progress(Error, moved, k + 1)
    case Moved(n) =>
      if n == 0 then Progress(Closed, moved, k + 1)
      else if n > total - moved then Progress(Fault, moved, k + 1)
      else Progress(if stop(k) then Eintr else Pending, moved + n, k + 1)
  }

  /** An operation on `total` bytes of which `moved` are done after `k` calls, observed up to call number `calls`. */
  function Drive(call: (nat, nat) -> Outcome, stop: nat -> bool, total: nat, moved: nat, k: nat, calls: nat): Progress
    requires moved <= total && k <= calls
    decreases calls - k
  {
    if moved == total then Progress(Finished, moved, k)
    else if k == calls then Progress(Pending, moved, k)
    else
      var p := AfterCall(call, stop, total, moved, k);
      if p.end == Pending then Drive(call, stop, total, p.moved, p.calls, calls) else p
  }

  /** The bytes the first `k` calls reported, each offered what the earlier ones left. */
  function Reported(call: (nat, nat) -> Outcome, total: nat, k: nat): nat {
    if k == 0 then 0
    else
      var before := Reported(call, total, k - 1);
      match call(k - 1, if before <= total then total - before else 0)
      case Moved(n) => before + n
      case _ => before
  }

  lemma CallCounts(call: (nat, nat) -> Outcome, stop: nat -> bool, total: nat, moved: nat, k: nat)
    requires moved < total && moved == Reported(call, total, k)
    ensures var p := AfterCall(call, stop, total, moved, k);
            && p.calls == k + 1 && moved <= p.moved <= total && p.end != Finished && p.end != Invalid
            && p.moved == Reported(call, total, if p.end == Fault then k else k + 1)
            && (p.end == Fault <==> Overclaims(call, total, k))
            && Explains(call, stop, total, k, p.end)
  {
  }

  lemma {:induction false} DriveBounds(call: (nat, nat) -> Outcome, stop: nat -> bool, total: nat, moved: nat,
                                       k: nat, calls: nat)
    requires moved <= total && k <= calls && moved == Reported(call, total, k)
    ensures var p := Drive(call, stop, total, moved, k, calls);
            && k <= p.calls <= calls && moved <= p.moved <= total
            && p.end != Invalid && (p.end == Fault ==> p.calls > k)
            && (p.end == Finished ==> p.moved == total)
            && (p.end == Pending ==> p.calls == calls && p.moved < total)
    decreases calls - k
  {
    if moved < total && k < calls {
      CallCounts(call, stop, total, moved, k);
      var p := AfterCall(call, stop, total, moved, k);
      if p.end == Pending {
        DriveBounds(call, stop, total, p.moved, p.calls, calls);
      }
    }
  }

  lemma {:induction false} DriveSum(call: (nat, nat) -> Outcome, stop: nat -> bool, total: nat, moved: nat,
                                    k: nat, calls: nat, p: Progress)
    requires moved <= total && k <= calls && moved == Reported(call, total, k)
    requires p == Drive(call, stop, total, moved, k, calls)
    ensures p.end != Fault ==> p.moved == Reported(call, total, p.calls)
    ensures p.end == Fault ==> p.calls > 0 && p.moved == Reported(call, total, p.calls - 1)
    decreases calls - k
  {
    if moved < total && k < calls {
      CallCounts(call, stop, total, moved, k);
      var q := AfterCall(call, stop, total, moved, k);
      if q.end == Pending {
        DriveSum(call, stop, total, q.moved, q.calls, calls, p);
      }
    }
  }

  /**
   What was handed over is the sum of what the calls reported, without the last call when that
   one claimed too much.  A finished operation has moved everything, one still running has not.
   */
  lemma DriveCounts(call: (nat, nat) -> Outcome, stop: nat -> bool, total: nat, calls: nat)
    ensures var p := Drive(call, stop, total, 0, 0, calls);
            && p.calls <= calls && p.moved <= total
            && p.end != Invalid && (p.end == Fault ==> p.calls > 0)
            && (p.end == Finished ==> p.moved == total)
            && (p.end == Pending ==> p.calls == calls && p.moved < total)
            && p.moved == Reported(call, total, if p.end == Fault then p.calls - 1 else p.calls)
  {
    DriveBounds(call, stop, total, 0, 0, calls);
    DriveSum(call, stop, total, 0, 0, calls, Drive(call, stop, total, 0, 0, calls));
  }

  /** No call is made once everything has been reported. */
  lemma {:induction false} NoCallTooMany(call: (nat, nat) -> Outcome, stop: nat -> bool, total: nat, moved: nat,
                                         k: nat, calls: nat, j: nat)
    requires moved <= total && k <= calls && moved == Reported(call, total, k)
    requires k <= j < Drive(call, stop, total, moved, k, calls).calls
    ensures Reported(call, total, j) < total
    decreases calls - k
  {
    if moved < total && k < calls && k < j {
      CallCounts(call, stop, total, moved, k);
      var p := AfterCall(call, stop, total, moved, k);
      if p.end == Pending {
        NoCallTooMany(call, stop, total, p.moved, p.calls, calls, j);
      }
    }
  }

  /** Every early end has its cause in the last call. */
  lemma {:induction false} DriveEnds(call: (nat, nat) -> Outcome, stop: nat -> bool, total: nat, moved: nat,
                                     k: nat, calls: nat, p: Progress)
    requires moved <= total && k <= calls && moved == Reported(call, total, k)
    requires p == Drive(call, stop, total, moved, k, calls) && p.end in {Eintr, Error, Closed, Fault}
    ensures p.calls > k && Explains(call, stop, total, p.calls - 1, p.end)
    ensures p.end == Fault ==> Overclaims(call, total, p.calls - 1)
    decreases calls - k
  {
    if moved < total && k < calls {
      CallCounts(call, stop, total, moved, k);
      var q := AfterCall(call, stop, total, moved, k);
      if q.end == Pending {
        DriveEnds(call, stop, total, q.moved, q.calls, calls, p);
      }
    }
  }

  /** Call `j` gives no cause to stop: it was not ready, or was interrupted or moved a possible count without a stop. */
  predicate GoesOn(call: (nat, nat) -> Outcome, stop: nat -> bool, total: nat, j: nat) {
    var before := Reported(call, total, j);
    before <= total &&
    match call(j, total - before)
    case NotReady => true
    case Interrupted => !stop(j)
    case Broken => false
    case Moved(n) => 0 < n <= total - before && !stop(j)
  }

  lemma CallGoesOn(call: (nat, nat) -> Outcome, stop: nat -> bool, total: nat, moved: nat, k: nat)
    requires moved < total && moved == Reported(call, total, k)
    ensures AfterCall(call, stop, total, moved, k).end == Pending <==> GoesOn(call, stop, total, k)
  {
  }

  /** All calls but the last give no cause to stop, and the operation ends early exactly if the last one does. */
  lemma {:induction false} StopsIff(call: (nat, nat) -> Outcome, stop: nat -> bool, total: nat, moved: nat,
                                    k: nat, calls: nat, p: Progress)
    requires moved <= total && k <= calls && moved == Reported(call, total, k)
    requires p == Drive(call, stop, total, moved, k, calls)
    ensures forall j :: k <= j < p.calls - 1 ==> GoesOn(call, stop, total, j)
    ensures p.calls >= k && (p.calls == k ==> p.end == Finished || p.end == Pending)
    ensures p.calls > k ==> (GoesOn(call, stop, total, p.calls - 1) <==> p.end == Finished || p.end == Pending)
    decreases calls - k
  {
    if moved < total && k < calls {
      CallCounts(call, stop, total, moved, k);
      CallGoesOn(call, stop, total, moved, k);
      var q := AfterCall(call, stop, total, moved, k);
      if q.end == Pending {
        StopsIff(call, stop, total, q.moved, q.calls, calls, p);
      }
    }
  }

  /** A call that claims too much is the last one, and ends the operation with a fault. */
  lemma {:induction false} OverclaimIsFault(call: (nat, nat) -> Outcome, stop: nat -> bool, total: nat, moved: nat,
                                            k: nat, calls: nat, j: nat)
    requires moved <= total && k <= calls && moved == Reported(call, total, k)
    requires k <= j < Drive(call, stop, total, moved, k, calls).calls && Overclaims(call, total, j)
    ensures var p := Drive(call, stop, total, moved, k, calls); p.end == Fault && j == p.calls - 1
    decreases calls - k
  {
    if moved < total && k < calls {
      CallCounts(call, stop, total, moved, k);
      var p := AfterCall(call, stop, total, moved, k);
      if p.end == Pending {
        OverclaimIsFault(call, stop, total, p.moved, p.calls, calls, j);
      }
    }
  }

  /** Call `j` claims more than it was offered. */
  predicate Overclaims(call: (nat, nat) -> Outcome, total: nat, j: nat) {
    var before := Reported(call, total, j);
    before <= total && var o := call(j, total - before); o.Moved? && o.n > total - before
  }

  /** Call `j` accounts for the way the operation ended. */
  predicate Explains(call: (nat, nat) -> Outcome, stop: nat -> bool, total: nat, j: nat, end: End) {
    var before := Reported(call, total, j);
    before <= total && var o := call(j, total - before);
    match end
    case Error => o.Broken?
    case Closed => o == Moved(0)
    case Eintr => stop(j) && (o.Moved? || o.Interrupted?)
    case _ => true
  }

  /** With an oracle that never claims more than it is offered, the branch that should not happen does not. */
  lemma NeverFaults(call: (nat, nat) -> Outcome, stop: nat -> bool, total: nat, calls: nat)
    requires forall j, left :: call(j, left).Moved? ==> call(j, left).n <= left
    ensures Drive(call, stop, total, 0, 0, calls).end != Fault
  {
    var p := Drive(call, stop, total, 0, 0, calls);
    if p.end == Fault {
      DriveEnds(call, stop, total, 0, 0, calls, p);
    }
  }

  // ----- the loop over chunks -----

  /** One call and what its outcome does; Pending when the operation goes on. */
  method OneCall(iov: array<Chunk>, first: nat, ghost input: seq<Chunk>, moved: seq<byte>,
                 call: (nat, nat) -> Outcome, stop: nat -> bool, k: nat)
    returns (end: End, at: nat, moved': seq<byte>)
    requires first < iov.Length && iov[first] != [] && Going(input, |moved|, moved, iov[first..])
    modifies iov
    ensures |moved| < WhenFinished(input)
    ensures Progress(end, |moved'|, k + 1) == AfterCall(call, stop, WhenFinished(input), |moved|, k)
    ensures at <= iov.Length && moved' <= Flatten(input)
    ensures end == Pending ==> Going(input, |moved'|, moved', iov[at..])
  {
    StillLeft(input, moved, iov[first..]);
    var offered := Flatten(iov[first..]);
    end, at, moved' := Pending, first, moved;
    match call(k, |offered|) {
      case NotReady =>
        return;
      case Broken =>
        return Error, at, moved;
      case Interrupted =>
      case Moved(n) =>
        if n == 0 { return Closed, at, moved; }
        var fault, next;
        fault, next := Advance(iov, first, n, input, |moved|, moved);
        if fault { return Fault, at, moved; }
        at, moved' := next, moved + offered[..n];
        Ended(input, |moved| + n, moved', iov[at..]);
    }
    if stop(k) {
      end := Eintr;
    }
  }

  method CopyOf(input: seq<Chunk>) returns (iov: array<Chunk>)
    ensures fresh(iov) && iov[0..] == input
  {
    iov := new Chunk[|input|](i requires 0 <= i < |input| => input[i]);
  }

  /** The loop over the calls, on a copy of the chunks. */
  method WriteChunks(input: seq<Chunk>, calls: nat, call: (nat, nat) -> Outcome, stop: nat -> bool)
    returns (end: End, moved: seq<byte>, k: nat)
    ensures Progress(end, |moved|, k) == Drive(call, stop, WhenFinished(input), 0, 0, calls)
    ensures moved <= Flatten(input)
  {
    moved, k := [], 0;
    var iov := CopyOf(input);
    var at := 0;
    ghost var total := WhenFinished(input);
    while at < iov.Length && |iov[at]| > 0
      invariant 0 <= at <= iov.Length && k <= calls && |moved| <= total
      invariant Going(input, |moved|, moved, iov[at..])
      invariant Drive(call, stop, total, 0, 0, calls) == Drive(call, stop, total, |moved|, k, calls)
      decreases calls - k
    {
      StillLeft(input, moved, iov[at..]);
      if k == calls {
        return Pending, moved, k;
      }
      end, at, moved := OneCall(iov, at, input, moved, call, stop, k);
      k := k + 1;
      if end != Pending {
        return;
      }
      Ended(input, |moved|, moved, iov[at..]);
    }
    Ended(input, |moved|, moved, iov[at..]);
    end := Finished;
  }

  /**
   atomiciov6 for writing.  `call(k, left)` is the outcome of call `k` with `left` bytes offered,
   `stop(k)` says whether the callback fails after it.  `pos` is the value returned, `moved` the
   bytes handed over, `k` the number of calls made.
   */
  method Atomiciov(input: seq<Chunk>, iovMax: nat, calls: nat, call: (nat, nat) -> Outcome, stop: nat -> bool)
    returns (end: End, pos: nat, moved: seq<byte>, k: nat)
    ensures |input| > iovMax ==> end == Invalid && pos == 0 && moved == [] && k == 0
    ensures |input| <= iovMax ==>
              && Progress(end, |moved|, k) == Drive(call, stop, WhenFinished(input), 0, 0, calls)
              && (end == Fault ==> k > 0)
              && |moved| == Reported(call, WhenFinished(input), if end == Fault then k - 1 else k)
              && (end == Finished ==> |moved| == WhenFinished(input))
              && (input == [] || input[0] == [] ==> end == Finished && k == 0 && moved == [])
    ensures moved <= Flatten(input)
    ensures pos == if end in {Invalid, Error, Fault} then 0 else |moved|
  {
    if |input| > iovMax {
      return Invalid, 0, [], 0;
    }
    end, moved, k := WriteChunks(input, calls, call, stop);
    DriveCounts(call, stop, WhenFinished(input), calls);
    pos := if end in {Error, Fault} then 0 else |moved|;
  }

  /** While a chunk is waiting, everything counts and the offer is exactly what is left. */
  lemma StillLeft(input: seq<Chunk>, moved: seq<byte>, rest: seq<Chunk>)
    requires Going(input, |moved|, moved, rest) && rest != [] && rest[0] != []
    ensures WhenFinished(input) == |Flatten(input)|
    ensures |Flatten(rest)| == |Flatten(input)| - |moved| > 0
    ensures moved <= Flatten(input)
  {
    Ended(input, |moved|, moved, rest);
  }
}
