/** Ordered multi-factor authentication: what a run must have seen before it succeeds. */
module AuthRuns {
  import opened Primitives
  import opened Texts
  import opened MethodLists
  import opened AuthSpec

  /** A successful use of one method. */
  datatype Success = Success(name: string, submethod: Option<string>)

  /** A request from the client, or the later result of a postponed method. */
  datatype Event =
    | NewRequest(user: string, service: string, name: string, answer: Answer)
    | Resumed(name: string, submethod: Option<string>, answer: Answer)

  datatype Session = Session(s: AuthState, successes: seq<Success>)

  predicate Enabled(x: Session, e: Event) {
    x.s.status == Going && (e.Resumed? ==> x.s.attempt > 0 && PlainSub(e.submethod))
  }

  function Log(cfg: Config, s: AuthState, authenticated: bool, name: string, submethod: Option<string>,
               rootDenied: bool): seq<Success> {
    var c := Credited(cfg, s, authenticated, name, rootDenied);
    if c.Some? then [Success(c.value, submethod)] else []
  }

  /** The state in which the result of `e` is handed to userauth_finish, if the request gets that far. */
  function Prepared(cfg: Config, s: AuthState, e: Event): AuthState {
    match e
    case NewRequest(user, service, name, a) =>
      var u := Open(cfg, s, user, service, a.userKnown).(postponed := false, serverCausedFailure := false);
      if MethodLookup(cfg.table, u, name).Some? && u.failures < cfg.maxTries
      then u.(postponed := a.postponed, serverCausedFailure := a.serverCausedFailure) else u
    case Resumed(_, _, a) => s.(postponed := a.postponed)
  }

  predicate Tried(cfg: Config, s: AuthState, e: Event) {
    e.Resumed? ||
    (var t := Open(cfg, s, e.user, e.service, e.answer.userKnown);
     t.status == Going && MethodLookup(cfg.table, t, e.name).Some? && t.failures < cfg.maxTries)
  }

  function Sub(e: Event): Option<string> {
    if e.Resumed? then e.submethod else None
  }

  function StepState(cfg: Config, s: AuthState, e: Event): AuthState {
    match e
    case NewRequest(user, service, name, a) => Request(cfg, s, user, service, name, a)
    case Resumed(name, submethod, a) =>
      Finish(cfg, s.(postponed := a.postponed), a.authenticated, name, submethod, a.rootDenied, a.accountDenied)
  }

  function Step(cfg: Config, x: Session, e: Event): Session {
    Session(StepState(cfg, x.s, e),
            x.successes + (if Tried(cfg, x.s, e)
                           then Log(cfg, Prepared(cfg, x.s, e), e.answer.authenticated, e.name, Sub(e),
                                    e.answer.rootDenied)
                           else []))
  }

  predicate IsRun(cfg: Config, x: Session, events: seq<Event>)
    decreases |events|
  {
    events == [] || (Enabled(x, events[0]) && IsRun(cfg, Step(cfg, x, events[0]), events[1..]))
  }

  function After(cfg: Config, x: Session, events: seq<Event>): Session
    decreases |events|
  {
    if events == [] then x else After(cfg, Step(cfg, x, events[0]), events[1..])
  }

  // ----- satisfying a list in order -----

  predicate Meets(token: string, e: Success) {
    Satisfies(token, e.name, e.submethod)
  }

  /** Some successes, in this order, satisfy all the tokens. */
  predicate InOrder(ts: seq<string>, es: seq<Success>)
    decreases |es|
  {
    || ts == []
    || (es != [] &&
        (|| InOrder(ts, es[..|es| - 1])
         || (Meets(ts[|ts| - 1], es[|es| - 1]) && InOrder(ts[..|ts| - 1], es[..|es| - 1]))))
  }

  /** How many tokens have gone when every success removes at most the current first token. */
  function Gone(ts: seq<string>, es: seq<Success>): (k: nat)
    ensures k <= |ts|
    decreases |es|
  {
    if es == [] then 0
    else
      var k := Gone(ts, es[..|es| - 1]);
      if k < |ts| && Meets(ts[k], es[|es| - 1]) then k + 1 else k
  }

  /** Removing greedily loses nothing: the tokens gone are the longest prefix the successes satisfy in order. */
  lemma {:induction false} GreedyIsExact(ts: seq<string>, es: seq<Success>, j: nat)
    requires j <= |ts|
    ensures InOrder(ts[..j], es) <==> j <= Gone(ts, es)
    decreases |es|
  {
    if es == [] {
      assert ts[..j] == [] <==> j == 0;
    } else {
      var init := es[..|es| - 1];
      GreedyIsExact(ts, init, j);
      if j > 0 {
        GreedyIsExact(ts, init, j - 1);
        assert ts[..j][..j - 1] == ts[..j - 1];
      }
    }
  }

  lemma GoneAppend(ts: seq<string>, es: seq<Success>, e: Success)
    ensures Gone(ts, es + [e]) ==
            var k := Gone(ts, es); if k < |ts| && Meets(ts[k], e) then k + 1 else k
  {
    assert (es + [e])[..|es + [e]| - 1] == es;
  }

  // ----- the invariant -----

  predicate GoodTable(table: seq<AuthMethod>) {
    forall m :: m in table ==> PlainName(m.name)
  }

  predicate Tracks(list: string, original: string, es: seq<Success>) {
    list == Join(Split(original)[Gone(Split(original), es)..])
  }

  /** Every list still held is what the successes so far leave of its original, and none is complete. */
  predicate Synced(lists: seq<string>, originals: seq<string>, es: seq<Success>) {
    && |lists| == |originals|
    && forall i :: 0 <= i < |lists| ==>
         Tracks(lists[i], originals[i], es) && Gone(Split(originals[i]), es) < |Split(originals[i])|
  }

  predicate SomeListDone(originals: seq<string>, es: seq<Success>) {
    exists i :: 0 <= i < |originals| && Gone(Split(originals[i]), es) == |Split(originals[i])|
  }

  predicate GoodOriginals(originals: seq<string>) {
    forall i :: 0 <= i < |originals| ==> GoodTokens(Split(originals[i]))
  }

  /** `options` and `originals` are fixed once the first request has set the lists up. */
  predicate Inv(x: Session, options: seq<string>, originals: seq<string>) {
    && x.s.options == options
    && options != []
    && (x.s.status == Going ==> Synced(x.s.lists, originals, x.successes))
    && (x.s.status == Succeeded ==> SomeListDone(originals, x.successes))
  }

  // ----- one success -----

  lemma OneList(original: string, list: string, es: seq<Success>, e: Success)
    requires GoodTokens(Split(original)) && PlainName(e.name) && PlainSub(e.submethod)
    requires Tracks(list, original, es) && Gone(Split(original), es) < |Split(original)|
    ensures var r := RemoveMethod(list, e.name, e.submethod);
            && Tracks(if r.Some? then r.value else list, original, es + [e])
            && (r == Some("") <==> Gone(Split(original), es + [e]) == |Split(original)|)
  {
    var ts := Split(original);
    var k := Gone(ts, es);
    GoneAppend(ts, es, e);
    assert ts[k..][1..] == ts[k + 1..];
    GoodSuffix(ts, k);
    GoodSuffix(ts, k + 1);
    RemoveRefinesTail(ts[k..], e.name, e.submethod);
    JoinEmpty(ts[k + 1..]);
  }

  /** Lists before `i` have already been moved on by `e`; the others have not. */
  predicate Halfway(lists: seq<string>, originals: seq<string>, es: seq<Success>, e: Success, i: nat) {
    && i <= |lists| == |originals|
    && (forall j :: 0 <= j < i ==>
          Tracks(lists[j], originals[j], es + [e]) && Gone(Split(originals[j]), es + [e]) < |Split(originals[j])|)
    && (forall j :: i <= j < |lists| ==>
          Tracks(lists[j], originals[j], es) && Gone(Split(originals[j]), es) < |Split(originals[j])|)
  }

  lemma MoveOne(lists: seq<string>, originals: seq<string>, es: seq<Success>, e: Success, i: nat)
    requires GoodOriginals(originals) && PlainName(e.name) && PlainSub(e.submethod)
    requires Halfway(lists, originals, es, e, i) && i < |lists|
    ensures var r := RemoveMethod(lists[i], e.name, e.submethod);
            && (r == Some("") <==> Gone(Split(originals[i]), es + [e]) == |Split(originals[i])|)
            && (r.None? ==> Halfway(lists, originals, es, e, i + 1))
            && (r.Some? && r.value != "" ==> Halfway(lists[i := r.value], originals, es, e, i + 1))
  {
    OneList(originals[i], lists[i], es, e);
    var r := RemoveMethod(lists[i], e.name, e.submethod);
    if r != Some("") {
      Advanced(lists, originals, es, e, i, if r.Some? then r.value else lists[i]);
      assert r.None? ==> lists[i := lists[i]] == lists;
    }
  }

  lemma Advanced(lists: seq<string>, originals: seq<string>, es: seq<Success>, e: Success, i: nat, x: string)
    requires Halfway(lists, originals, es, e, i) && i < |lists|
    requires Tracks(x, originals[i], es + [e]) && Gone(Split(originals[i]), es + [e]) < |Split(originals[i])|
    ensures Halfway(lists[i := x], originals, es, e, i + 1)
  {
  }

  lemma DoneFrom(originals: seq<string>, lists: seq<string>, es: seq<Success>, e: Success)
    requires Halfway(lists, originals, es, e, |lists|)
    ensures Synced(lists, originals, es + [e]) && !SomeListDone(originals, es + [e])
  {
  }

  /** The update loop completes exactly when the new success finishes some list, and otherwise moves every list on. */
  lemma {:induction false} UpdateKeeps(lists: seq<string>, originals: seq<string>, es: seq<Success>, e: Success,
                                       i: nat, found: bool)
    requires GoodOriginals(originals) && PlainName(e.name) && PlainSub(e.submethod)
    requires Halfway(lists, originals, es, e, i)
    ensures var (after, u) := UpdateFrom(lists, i, e.name, e.submethod, found);
            && (u == Complete <==> SomeListDone(originals, es + [e]))
            && (u != Complete ==> Synced(after, originals, es + [e]))
    decreases |lists| - i
  {
    if i == |lists| {
      DoneFrom(originals, lists, es, e);
    } else {
      MoveOne(lists, originals, es, e, i);
      var r := RemoveMethod(lists[i], e.name, e.submethod);
      if r.None? {
        UpdateKeeps(lists, originals, es, e, i + 1, found);
      } else if r.value != "" {
        UpdateKeeps(lists[i := r.value], originals, es, e, i + 1, true);
      }
    }
  }

  /** The fatal "method not in AuthenticationMethods" is raised exactly when no list starts with the method. */
  lemma {:induction false} NotListedIff(lists: seq<string>, i: nat, name: string, submethod: Option<string>,
                                        found: bool)
    requires i <= |lists|
    ensures UpdateFrom(lists, i, name, submethod, found).1 == NotListed <==>
            !found && forall j :: i <= j < |lists| ==> RemoveMethod(lists[j], name, submethod).None?
    decreases |lists| - i
  {
    if i < |lists| {
      var r := RemoveMethod(lists[i], name, submethod);
      if r.None? {
        NotListedIff(lists, i + 1, name, submethod, found);
      } else if r.value != "" {
        NotListedIff(lists[i := r.value], i + 1, name, submethod, true);
      }
    }
  }

  // ----- one step -----

  lemma {:induction false} ByNameInTable(table: seq<AuthMethod>, name: string)
    ensures MethodByName(table, name).Some? ==> MethodByName(table, name).value in table
  {
    if table != [] {
      ByNameInTable(table[1..], name);
    }
  }

  lemma FinishKeeps(cfg: Config, s: AuthState, es: seq<Success>, originals: seq<string>, authenticated: bool,
                    name: string, submethod: Option<string>, rootDenied: bool, accountDenied: bool)
    requires GoodTable(cfg.table) && GoodOriginals(originals) && PlainSub(submethod)
    requires s.status == Going && s.options != [] && Synced(s.lists, originals, es)
    ensures Inv(Session(Finish(cfg, s, authenticated, name, submethod, rootDenied, accountDenied),
                        es + Log(cfg, s, authenticated, name, submethod, rootDenied)), s.options, originals)
  {
    var c := Credited(cfg, s, authenticated, name, rootDenied);
    if c.Some? {
      ByNameInTable(cfg.table, name);
      UpdateKeeps(s.lists, originals, es, Success(c.value, submethod), 0, false);
    } else {
      assert es + [] == es;
    }
  }

  /** Lists that passed the set-up start out whole and are never empty. */
  lemma {:induction false} KeptValid(table: seq<AuthMethod>, options: seq<string>)
    ensures forall i :: 0 <= i < |Kept(table, options)| ==>
              ListValid(table, Kept(table, options)[i], true) && Kept(table, options)[i] in options
  {
    if options != [] {
      KeptValid(table, options[1..]);
    }
  }

  lemma SetUpSyncs(table: seq<AuthMethod>, options: seq<string>)
    requires GoodTable(table)
    ensures Synced(Kept(table, options), Kept(table, options), [])
    ensures GoodOriginals(Kept(table, options))
  {
    var kept := Kept(table, options);
    KeptValid(table, options);
    forall i | 0 <= i < |kept|
      ensures Tracks(kept[i], kept[i], []) && GoodTokens(Split(kept[i]))
    {
      JoinSplit(kept[i]);
      assert Split(kept[i])[0..] == Split(kept[i]);
      ValidTokensGood(table, kept[i], true);
    }
  }

  lemma StepKeeps(cfg: Config, x: Session, e: Event, originals: seq<string>)
    requires GoodTable(cfg.table) && GoodOriginals(originals)
    requires Inv(x, x.s.options, originals) && Enabled(x, e) && x.s.attempt > 0
    ensures Inv(Step(cfg, x, e), x.s.options, originals)
  {
    match e
    case Resumed(name, submethod, a) =>
      FinishKeeps(cfg, Prepared(cfg, x.s, e), x.successes, originals, a.authenticated, name, submethod,
                  a.rootDenied, a.accountDenied);
    case NewRequest(user, service, name, a) =>
      var t := Open(cfg, x.s, user, service, a.userKnown);
      assert x.successes + [] == x.successes;
      if t.status == Going {
        RequestKeeps(cfg, x, e, originals, t);
      }
  }

  /** The rest of a request, once the opening checks have let it through. */
  lemma RequestKeeps(cfg: Config, x: Session, e: Event, originals: seq<string>, t: AuthState)
    requires GoodTable(cfg.table) && GoodOriginals(originals)
    requires e.NewRequest? && t == Open(cfg, x.s, e.user, e.service, e.answer.userKnown)
    requires t.status == Going && t.options != [] && Synced(t.lists, originals, x.successes)
    ensures Inv(Step(cfg, x, e), t.options, originals)
  {
    var a, p, tried := e.answer, Prepared(cfg, x.s, e), Tried(cfg, x.s, e);
    RequestIsFinish(cfg, x.s, e);
    PreparedKeeps(cfg, x.s, e, t);
    FinishKeeps(cfg, p, x.successes, originals, tried && a.authenticated, e.name, None, a.rootDenied, a.accountDenied);
    assert x.successes + [] == x.successes;
  }

  lemma PreparedKeeps(cfg: Config, s: AuthState, e: Event, t: AuthState)
    requires e.NewRequest? && t == Open(cfg, s, e.user, e.service, e.answer.userKnown) && t.status == Going
    ensures var p := Prepared(cfg, s, e); p.status == Going && p.options == t.options && p.lists == t.lists
    ensures Tried(cfg, s, e) <==> MethodLookup(cfg.table, t, e.name).Some? && t.failures < cfg.maxTries
  {
  }

  lemma {:induction false} RunKeeps(cfg: Config, x: Session, events: seq<Event>, originals: seq<string>)
    requires GoodTable(cfg.table) && GoodOriginals(originals)
    requires Inv(x, x.s.options, originals) && IsRun(cfg, x, events) && x.s.attempt > 0
    ensures Inv(After(cfg, x, events), x.s.options, originals)
    decreases |events|
  {
    if events != [] {
      StepKeeps(cfg, x, events[0], originals);
      AttemptGrows(cfg, x.s, events[0]);
      RunKeeps(cfg, Step(cfg, x, events[0]), events[1..], originals);
    }
  }

  lemma AttemptGrows(cfg: Config, s: AuthState, e: Event)
    ensures StepState(cfg, s, e).attempt >= s.attempt
    ensures e.NewRequest? && s.attempt < MAX_ATTEMPTS ==> StepState(cfg, s, e).attempt > s.attempt
  {
    match e
    case Resumed(name, submethod, a) =>
      FinishCounts(cfg, Prepared(cfg, s, e), a.authenticated, name, submethod, a.rootDenied, a.accountDenied);
    case NewRequest(user, service, name, a) =>
      RequestCounts(cfg, s, e);
      OpenGrows(cfg, s, e);
  }

  lemma OpenGrows(cfg: Config, s: AuthState, e: Event)
    requires e.NewRequest?
    ensures var t := Open(cfg, s, e.user, e.service, e.answer.userKnown);
            t.attempt >= s.attempt && (s.attempt < MAX_ATTEMPTS ==> t.attempt > s.attempt)
  {
  }

  /** A result leaves the request count alone and adds at most one failure, which is checked at once. */
  lemma FinishCounts(cfg: Config, s: AuthState, authenticated: bool, name: string, submethod: Option<string>,
                     rootDenied: bool, accountDenied: bool)
    ensures var t := Finish(cfg, s, authenticated, name, submethod, rootDenied, accountDenied);
            && t.attempt == s.attempt
            && s.failures <= t.failures <= s.failures + 1
            && (t.status == Going && s.failures < cfg.maxTries ==> t.failures < cfg.maxTries)
  {
  }

  lemma RequestIsFinish(cfg: Config, s: AuthState, e: Event)
    requires e.NewRequest?
    ensures var t := Open(cfg, s, e.user, e.service, e.answer.userKnown);
            && StepState(cfg, s, e) ==
                 (if t.status != Going then t
                  else Finish(cfg, Prepared(cfg, s, e), Tried(cfg, s, e) && e.answer.authenticated, e.name, None,
                              e.answer.rootDenied, e.answer.accountDenied))
            && Prepared(cfg, s, e).attempt == t.attempt && Prepared(cfg, s, e).failures == t.failures == s.failures
  {
    var t := Open(cfg, s, e.user, e.service, e.answer.userKnown);
    assert MethodLookup(cfg.table, t.(postponed := false, serverCausedFailure := false), e.name) ==
           MethodLookup(cfg.table, t, e.name);
  }

  lemma FirstRequest(cfg: Config, options: seq<string>, e: Event)
    requires GoodTable(cfg.table) && Normalise(options) != []
    requires Enabled(Session(Initial(options), []), e)
    ensures Inv(Step(cfg, Session(Initial(options), []), e), Normalise(options), Kept(cfg.table, Normalise(options)))
  {
    var x := Session(Initial(options), []);
    var kept := Kept(cfg.table, Normalise(options));
    SetUpSyncs(cfg.table, Normalise(options));
    var t := Open(cfg, x.s, e.user, e.service, e.answer.userKnown);
    if t.status == Going {
      RequestKeeps(cfg, x, e, kept, t);
    }
  }

  // ----- the main results -----

  /**
   With AuthenticationMethods configured, a run ends authenticated only after successes that
   satisfy, in order, every entry of some configured list that passed the set-up.
   */
  lemma OrderedMultiFactor(cfg: Config, options: seq<string>, events: seq<Event>)
    requires GoodTable(cfg.table) && Normalise(options) != []
    requires IsRun(cfg, Session(Initial(options), []), events)
    ensures var end := After(cfg, Session(Initial(options), []), events);
            end.s.status == Succeeded ==>
              exists list :: list in options && ListValid(cfg.table, list, true) && InOrder(Split(list), end.successes)
  {
    var x := Session(Initial(options), []);
    var kept := Kept(cfg.table, Normalise(options));
    if events != [] {
      ReachedInv(cfg, options, events);
      var end := After(cfg, x, events);
      if end.s.status == Succeeded {
        var i :| 0 <= i < |kept| && Gone(Split(kept[i]), end.successes) == |Split(kept[i])|;
        var ts := Split(kept[i]);
        GreedyIsExact(ts, end.successes, |ts|);
        assert ts[..|ts|] == ts;
        KeptValid(cfg.table, Normalise(options));
      }
    }
  }

  lemma ReachedInv(cfg: Config, options: seq<string>, events: seq<Event>)
    requires GoodTable(cfg.table) && Normalise(options) != [] && events != []
    requires IsRun(cfg, Session(Initial(options), []), events)
    ensures Inv(After(cfg, Session(Initial(options), []), events), Normalise(options),
                Kept(cfg.table, Normalise(options)))
  {
    var x := Session(Initial(options), []);
    var kept := Kept(cfg.table, Normalise(options));
    FirstRequest(cfg, options, events[0]);
    AttemptGrows(cfg, x.s, events[0]);
    SetUpSyncs(cfg.table, Normalise(options));
    RunKeeps(cfg, Step(cfg, x, events[0]), events[1..], kept);
  }

  /** While the lists are in step, a method may be tried exactly when it is the next entry of some list. */
  lemma AllowedIffNext(s: AuthState, originals: seq<string>, es: seq<Success>, name: string)
    requires GoodOriginals(originals) && PlainName(name)
    requires s.options != [] && Synced(s.lists, originals, es)
    ensures Allowed(s, name, None) <==>
            exists i :: 0 <= i < |originals| && NextIs(Split(originals[i])[Gone(Split(originals[i]), es)], name)
  {
    forall i | 0 <= i < |s.lists|
      ensures ListStartsWith(s.lists[i], name, None) != MatchNone <==>
              NextIs(Split(originals[i])[Gone(Split(originals[i]), es)], name)
    {
      var left := Split(originals[i])[Gone(Split(originals[i]), es)..];
      JoinHeadTail(left);
      StartsWithIsHeadMatch(left[0], Tail(left), name, None);
    }
  }

  predicate NextIs(token: string, name: string) {
    token == name || HasPrefix(token, name + ":")
  }

  /** While the run goes on no list is satisfied yet: authentication is never withheld once one is. */
  lemma NoListLeftBehind(cfg: Config, options: seq<string>, events: seq<Event>)
    requires GoodTable(cfg.table) && Normalise(options) != [] && events != []
    requires IsRun(cfg, Session(Initial(options), []), events)
    requires After(cfg, Session(Initial(options), []), events).s.status == Going
    ensures var end := After(cfg, Session(Initial(options), []), events);
            var kept := Kept(cfg.table, Normalise(options));
            && |end.s.lists| == |kept|
            && forall i :: 0 <= i < |kept| ==>
                 && !InOrder(Split(kept[i]), end.successes)
                 && end.s.lists[i] == Join(Split(kept[i])[Gone(Split(kept[i]), end.successes)..])
                 && InOrder(Split(kept[i])[..Gone(Split(kept[i]), end.successes)], end.successes)
  {
    ReachedInv(cfg, options, events);
    var end := After(cfg, Session(Initial(options), []), events);
    var kept := Kept(cfg.table, Normalise(options));
    forall i | 0 <= i < |kept|
      ensures !InOrder(Split(kept[i]), end.successes)
      ensures InOrder(Split(kept[i])[..Gone(Split(kept[i]), end.successes)], end.successes)
    {
      var ts := Split(kept[i]);
      assert ts[..|ts|] == ts;
      GreedyIsExact(ts, end.successes, |ts|);
      GreedyIsExact(ts, end.successes, Gone(ts, end.successes));
    }
  }

  /** Every run is cut off: while it goes on, fewer failures and fewer requests than the limits have been seen. */
  lemma {:induction false} TriesAreBounded(cfg: Config, x: Session, events: seq<Event>)
    requires IsRun(cfg, x, events) && cfg.maxTries > 0
    requires x.s.attempt <= MAX_ATTEMPTS && 0 <= x.s.failures < cfg.maxTries
    ensures var t := After(cfg, x, events).s;
            t.attempt <= MAX_ATTEMPTS && 0 <= t.failures <= cfg.maxTries
            && (t.status == Going ==> t.failures < cfg.maxTries)
    decreases |events|
  {
    if events != [] {
      TriesStep(cfg, x, events[0]);
      if |events| > 1 {
        TriesAreBounded(cfg, Step(cfg, x, events[0]), events[1..]);
      }
    }
  }

  lemma TriesStep(cfg: Config, x: Session, e: Event)
    requires Enabled(x, e) && cfg.maxTries > 0
    requires x.s.attempt <= MAX_ATTEMPTS && 0 <= x.s.failures < cfg.maxTries
    ensures var t := StepState(cfg, x.s, e);
            t.attempt <= MAX_ATTEMPTS && 0 <= t.failures <= cfg.maxTries
            && (t.status == Going ==> t.failures < cfg.maxTries)
  {
    match e
    case Resumed(name, submethod, a) =>
      FinishCounts(cfg, Prepared(cfg, x.s, e), a.authenticated, name, submethod, a.rootDenied, a.accountDenied);
    case NewRequest(user, service, name, a) =>
      RequestCounts(cfg, x.s, e);
      OpenCounts(cfg, x.s, e);
  }

  lemma RequestCounts(cfg: Config, s: AuthState, e: Event)
    requires e.NewRequest?
    ensures var t := Open(cfg, s, e.user, e.service, e.answer.userKnown);
            var r := StepState(cfg, s, e);
            && r.attempt == t.attempt
            && s.failures <= r.failures <= s.failures + 1
            && (r.status == Going && s.failures < cfg.maxTries ==> r.failures < cfg.maxTries)
  {
    RequestIsFinish(cfg, s, e);
    FinishCounts(cfg, Prepared(cfg, s, e), Tried(cfg, s, e) && e.answer.authenticated, e.name, None,
                 e.answer.rootDenied, e.answer.accountDenied);
  }

  lemma OpenCounts(cfg: Config, s: AuthState, e: Event)
    requires e.NewRequest? && s.attempt <= MAX_ATTEMPTS
    ensures Open(cfg, s, e.user, e.service, e.answer.userKnown).attempt <= MAX_ATTEMPTS
  {
  }
}
