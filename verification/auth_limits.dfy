/** What a run costs and who it is for: tries, the user, and the methods that may be used. */
module AuthLimits {
  import opened Primitives
  import opened Texts
  import opened MethodLists
  import opened AuthSpec
  import opened AuthRuns

  // ----- failures are charged -----

  /** The request gets past the opening checks; a resumed method has no opening. */
  predicate Opened(cfg: Config, s: AuthState, e: Event) {
    e.Resumed? || Open(cfg, s, e.user, e.service, e.answer.userKnown).status == Going
  }

  /** Requests seen so far, this one included. */
  function RequestNumber(s: AuthState, e: Event): nat {
    if e.NewRequest? then s.attempt + 1 else s.attempt
  }

  /** The name a result is reported under: a success goes under the primary name of its method. */
  function ReportedName(cfg: Config, e: Event, authenticated: bool): string {
    var m := MethodByName(cfg.table, e.name);
    if authenticated && m.Some? then m.value.name else e.name
  }

  /** The server blames itself for this result: as the answer says, or for a resumed method as it last said. */
  predicate ServersFault(cfg: Config, s: AuthState, e: Event) {
    if e.Resumed? then s.serverCausedFailure else Tried(cfg, s, e) && e.answer.serverCausedFailure
  }

  /** A success that cannot be true: the user is unknown, the method is, or it is still to be resumed. */
  predicate Absurd(cfg: Config, s: AuthState, e: Event) {
    && Tried(cfg, s, e) && e.answer.authenticated
    && (|| e.answer.postponed
        || MethodByName(cfg.table, e.name).None?
        || !(if e.Resumed? then s.valid else Open(cfg, s, e.user, e.service, e.answer.userKnown).valid))
  }

  /**
   A result that costs the client a try: the request was let in, and its result is not logged as a
   success, not to be resumed later, not the server's fault, and not the first request's "none".
   */
  predicate Charged(cfg: Config, x: Session, e: Event) {
    var tried := Tried(cfg, x.s, e);
    && Opened(cfg, x.s, e)
    && Step(cfg, x, e).successes == x.successes
    && !Absurd(cfg, x.s, e)
    && !(tried && e.answer.postponed)
    && !ServersFault(cfg, x.s, e)
    && !(RequestNumber(x.s, e) <= 1 && ReportedName(cfg, e, tried && e.answer.authenticated) == "none")
  }

  /** A result is charged, or not, and the connection is cut off exactly when that uses up the tries. */
  lemma FinishCharges(cfg: Config, s: AuthState, authenticated: bool, name: string, submethod: Option<string>,
                      rootDenied: bool, accountDenied: bool)
    requires s.status == Going
    ensures var t := Finish(cfg, s, authenticated, name, submethod, rootDenied, accountDenied);
            var m := MethodByName(cfg.table, name);
            var reported := if authenticated && m.Some? then m.value.name else name;
            var charged :=
              && Credited(cfg, s, authenticated, name, rootDenied).None?
              && !(authenticated && (s.postponed || m.None? || !s.valid))
              && !s.postponed && !s.serverCausedFailure && !(s.attempt <= 1 && reported == "none");
            && t.failures == s.failures + (if charged then 1 else 0)
            && (s.failures < cfg.maxTries ==> (t.status == Disconnected <==> charged && t.failures >= cfg.maxTries))
  {
  }

  /** Where the result of an event that was let in is judged. */
  lemma StepIsFinish(cfg: Config, s: AuthState, e: Event) returns (p: AuthState, authenticated: bool)
    requires s.status == Going && Opened(cfg, s, e)
    ensures p == Prepared(cfg, s, e) && authenticated == (Tried(cfg, s, e) && e.answer.authenticated)
    ensures StepState(cfg, s, e) ==
            Finish(cfg, p, authenticated, e.name, Sub(e), e.answer.rootDenied, e.answer.accountDenied)
    ensures p.status == Going && p.failures == s.failures && p.attempt == RequestNumber(s, e)
    ensures p.postponed == (Tried(cfg, s, e) && e.answer.postponed) && p.serverCausedFailure == ServersFault(cfg, s, e)
    ensures p.valid == if e.Resumed? then s.valid else Open(cfg, s, e.user, e.service, e.answer.userKnown).valid
  {
    p, authenticated := Prepared(cfg, s, e), Tried(cfg, s, e) && e.answer.authenticated;
    if e.NewRequest? {
      RequestIsFinish(cfg, s, e);
      PreparedKeeps(cfg, s, e, Open(cfg, s, e.user, e.service, e.answer.userKnown));
    }
  }

  /** One event adds a failure exactly if it is charged, and ends in a cut-off exactly if that uses up the tries. */
  lemma StepCharges(cfg: Config, x: Session, e: Event)
    requires Enabled(x, e)
    ensures var t := StepState(cfg, x.s, e);
            && t.failures == x.s.failures + (if Charged(cfg, x, e) then 1 else 0)
            && (Opened(cfg, x.s, e) && x.s.failures < cfg.maxTries ==>
                  (t.status == Disconnected <==> Charged(cfg, x, e) && t.failures >= cfg.maxTries))
            && (!Opened(cfg, x.s, e) ==> t.status == Disconnected)
  {
    if Opened(cfg, x.s, e) {
      var a := e.answer;
      var p, authenticated := StepIsFinish(cfg, x.s, e);
      FinishCharges(cfg, p, authenticated, e.name, Sub(e), a.rootDenied, a.accountDenied);
      LoggedIff(cfg, x, e, p, authenticated);
    } else {
      RefusedKeeps(cfg, x.s, e);
    }
  }

  lemma LoggedIff(cfg: Config, x: Session, e: Event, p: AuthState, authenticated: bool)
    requires Enabled(x, e) && p == Prepared(cfg, x.s, e)
    requires authenticated == (Tried(cfg, x.s, e) && e.answer.authenticated)
    ensures Step(cfg, x, e).successes == x.successes <==>
            Credited(cfg, p, authenticated, e.name, e.answer.rootDenied).None?
  {
    var c := Credited(cfg, p, authenticated, e.name, e.answer.rootDenied);
    assert c.Some? ==> |Step(cfg, x, e).successes| == |x.successes| + 1;
    assert c.None? ==> Step(cfg, x, e).successes == x.successes + [];
  }

  lemma RefusedKeeps(cfg: Config, s: AuthState, e: Event)
    requires s.status == Going && !Opened(cfg, s, e)
    ensures StepState(cfg, s, e).failures == s.failures && StepState(cfg, s, e).status == Disconnected
  {
  }

  function ChargedEvents(cfg: Config, x: Session, events: seq<Event>): nat
    decreases |events|
  {
    if events == [] then 0
    else (if Charged(cfg, x, events[0]) then 1 else 0) + ChargedEvents(cfg, Step(cfg, x, events[0]), events[1..])
  }

  /** Over every run the failure count moves by exactly the number of charged events. */
  lemma {:induction false} FailuresAreCharged(cfg: Config, x: Session, events: seq<Event>)
    requires IsRun(cfg, x, events)
    ensures After(cfg, x, events).s.failures == x.s.failures + ChargedEvents(cfg, x, events)
    decreases |events|
  {
    if events != [] {
      StepCharges(cfg, x, events[0]);
      FailuresAreCharged(cfg, Step(cfg, x, events[0]), events[1..]);
    }
  }

  /** A run that goes on has been charged less often than the limit: as many charged events as tries end it. */
  lemma ChargesRunOut(cfg: Config, options: seq<string>, events: seq<Event>)
    requires cfg.maxTries > 0
    requires var x := Session(Initial(options), []); IsRun(cfg, x, events)
    ensures var x := Session(Initial(options), []);
            After(cfg, x, events).s.status == Going ==> ChargedEvents(cfg, x, events) < cfg.maxTries
  {
    var x := Session(Initial(options), []);
    FailuresAreCharged(cfg, x, events);
    TriesAreBounded(cfg, x, events);
  }

  // ----- one user per run -----

  function Requests(events: seq<Event>): nat {
    if events == [] then 0 else (if events[0].NewRequest? then 1 else 0) + Requests(events[1..])
  }

  /** Every request names this user, a style behind a colon apart, and this service. */
  predicate NamesOnly(events: seq<Event>, user: string, service: string) {
    forall e :: e in events && e.NewRequest? ==> Base(e.user) == user && e.service == service
  }

  /** Past the first request, an event that does not end the run names the run's user and service and counts itself. */
  lemma StepNames(cfg: Config, s: AuthState, e: Event)
    requires s.status == Going && s.attempt > 0
    ensures var t := StepState(cfg, s, e);
            && t.user == s.user && t.service == s.service && t.valid == s.valid
            && (t.status != Disconnected || Opened(cfg, s, e) ==>
                  && t.attempt == s.attempt + (if e.NewRequest? then 1 else 0)
                  && NamesOnly([e], s.user, s.service) && (e.NewRequest? ==> s.attempt < MAX_ATTEMPTS))
  {
    if Opened(cfg, s, e) {
      var p, authenticated := StepIsFinish(cfg, s, e);
      FinishNames(cfg, p, authenticated, e.name, Sub(e), e.answer.rootDenied, e.answer.accountDenied);
    } else {
      RefusedKeeps(cfg, s, e);
    }
  }

  lemma FinishNames(cfg: Config, s: AuthState, authenticated: bool, name: string, submethod: Option<string>,
                    rootDenied: bool, accountDenied: bool)
    ensures var t := Finish(cfg, s, authenticated, name, submethod, rootDenied, accountDenied);
            t.user == s.user && t.service == s.service && t.valid == s.valid && t.attempt == s.attempt
  {
  }

  lemma {:induction false} RunNames(cfg: Config, x: Session, events: seq<Event>)
    requires IsRun(cfg, x, events) && x.s.attempt > 0 && x.s.status == Going
    ensures var t := After(cfg, x, events).s;
            && t.user == x.s.user && t.service == x.s.service && t.valid == x.s.valid
            && (t.status == Going || t.status == Succeeded ==>
                  t.attempt == x.s.attempt + Requests(events) && NamesOnly(events, x.s.user, x.s.service))
    decreases |events|
  {
    if events != [] {
      var y := Step(cfg, x, events[0]);
      StepNames(cfg, x.s, events[0]);
      AttemptGrows(cfg, x.s, events[0]);
      assert events == [events[0]] + events[1..];
      if y.s.status == Going {
        RunNames(cfg, y, events[1..]);
      } else {
        assert events[1..] == [];
      }
    }
  }

  lemma FinishSucceeds(cfg: Config, s: AuthState, authenticated: bool, name: string, submethod: Option<string>,
                       rootDenied: bool, accountDenied: bool)
    requires s.status == Going
    ensures Finish(cfg, s, authenticated, name, submethod, rootDenied, accountDenied).status == Succeeded ==>
              s.valid && Credited(cfg, s, authenticated, name, rootDenied).Some? && !accountDenied
  {
  }

  lemma StepSucceeds(cfg: Config, x: Session, e: Event)
    requires Enabled(x, e) && StepState(cfg, x.s, e).status == Succeeded
    ensures StepState(cfg, x.s, e).valid && !e.answer.accountDenied && !e.answer.rootDenied
    ensures |Step(cfg, x, e).successes| == |x.successes| + 1
  {
    if Opened(cfg, x.s, e) {
      var p, authenticated := StepIsFinish(cfg, x.s, e);
      FinishSucceeds(cfg, p, authenticated, e.name, Sub(e), e.answer.rootDenied, e.answer.accountDenied);
      FinishNames(cfg, p, authenticated, e.name, Sub(e), e.answer.rootDenied, e.answer.accountDenied);
      LoggedIff(cfg, x, e, p, authenticated);
    } else {
      RefusedKeeps(cfg, x.s, e);
    }
  }

  lemma {:induction false} RunSucceeds(cfg: Config, x: Session, events: seq<Event>)
    requires IsRun(cfg, x, events) && x.s.status == Going && After(cfg, x, events).s.status == Succeeded
    ensures After(cfg, x, events).s.valid
    decreases |events|
  {
    var y := Step(cfg, x, events[0]);
    if y.s.status == Going {
      RunSucceeds(cfg, y, events[1..]);
    } else {
      assert events[1..] == [];
      StepSucceeds(cfg, x, events[0]);
    }
  }

  lemma FirstStep(cfg: Config, options: seq<string>, e: Event)
    requires Enabled(Session(Initial(options), []), e)
    ensures var t := StepState(cfg, Initial(options), e);
            && e.NewRequest? && t.attempt == 1 && t.user == Base(e.user) && t.service == e.service
            && t.valid == (e.answer.userKnown && e.service == "ssh-connection")
  {
    if Opened(cfg, Initial(options), e) {
      var p, authenticated := StepIsFinish(cfg, Initial(options), e);
      FinishNames(cfg, p, authenticated, e.name, Sub(e), e.answer.rootDenied, e.answer.accountDenied);
    }
  }

  /**
   As long as a run goes on, and when it ends authenticated, all its requests have named the user
   and the service of the first one and have been counted, at most 1024 of them; and it only ever
   ends authenticated for a user who exists and the service "ssh-connection".
   */
  lemma OneUserPerRun(cfg: Config, options: seq<string>, events: seq<Event>)
    requires cfg.maxTries > 0 && events != []
    requires IsRun(cfg, Session(Initial(options), []), events)
    ensures events[0].NewRequest?
    ensures var end, first := After(cfg, Session(Initial(options), []), events).s, events[0];
            && (end.status == Going || end.status == Succeeded ==>
                  && NamesOnly(events, Base(first.user), first.service)
                  && end.attempt == Requests(events) <= 1024)
            && (end.status == Succeeded ==> first.answer.userKnown && first.service == "ssh-connection")
  {
    var x, first := Session(Initial(options), []), events[0];
    var y := Step(cfg, x, first);
    FirstStep(cfg, options, first);
    TriesAreBounded(cfg, x, events);
    assert events == [first] + events[1..];
    if y.s.status == Going {
      RunNames(cfg, y, events[1..]);
    } else {
      assert events[1..] == [];
    }
    if After(cfg, x, events).s.status == Succeeded {
      RunSucceeds(cfg, x, events);
    }
  }

  // ----- no lists configured -----

  lemma FinishSingle(cfg: Config, s: AuthState, authenticated: bool, name: string, submethod: Option<string>,
                     rootDenied: bool, accountDenied: bool)
    requires s.status == Going && s.options == []
    ensures var t := Finish(cfg, s, authenticated, name, submethod, rootDenied, accountDenied);
            && t.options == []
            && (Credited(cfg, s, authenticated, name, rootDenied).Some? ==>
                  t.status == if accountDenied then Died else Succeeded)
  {
  }

  /** Lists are not asked for: none are configured, or only "any" is. */
  predicate NoLists(s: AuthState) {
    s.options == [] || (s.attempt == 0 && s.options == ["any"])
  }

  lemma OpenSingle(cfg: Config, s: AuthState, e: Event)
    requires s.status == Going && NoLists(s) && e.NewRequest?
    ensures NoLists(Open(cfg, s, e.user, e.service, e.answer.userKnown))
    ensures Opened(cfg, s, e) ==> Open(cfg, s, e.user, e.service, e.answer.userKnown).options == []
  {
  }

  lemma StepSingle(cfg: Config, x: Session, e: Event)
    requires Enabled(x, e) && NoLists(x.s) && x.successes == []
    ensures var y := Step(cfg, x, e);
            && (y.s.status == Going ==> NoLists(y.s) && y.successes == [])
            && (|y.successes| == 1 ==> y.s.status == if e.answer.accountDenied then Died else Succeeded)
            && |y.successes| <= 1
  {
    if e.NewRequest? {
      OpenSingle(cfg, x.s, e);
    }
    if Opened(cfg, x.s, e) {
      var p, authenticated := StepIsFinish(cfg, x.s, e);
      FinishSingle(cfg, p, authenticated, e.name, Sub(e), e.answer.rootDenied, e.answer.accountDenied);
      LoggedIff(cfg, x, e, p, authenticated);
    } else {
      RefusedKeeps(cfg, x.s, e);
    }
  }

  lemma {:induction false} RunSingle(cfg: Config, x: Session, events: seq<Event>)
    requires IsRun(cfg, x, events) && x.s.status == Going && NoLists(x.s) && x.successes == []
    ensures var end := After(cfg, x, events);
            && (end.s.status == Going ==> end.successes == [])
            && (end.s.status == Succeeded ==> |end.successes| == 1)
    decreases |events|
  {
    if events != [] {
      var y := Step(cfg, x, events[0]);
      StepSingle(cfg, x, events[0]);
      if y.s.status == Going {
        RunSingle(cfg, y, events[1..]);
      } else {
        assert events[1..] == [];
        if y.s.status == Succeeded {
          StepSucceeds(cfg, x, events[0]);
        }
      }
    }
  }

  /** Without lists, or with "any" alone, the first success decides: no run goes on after it or succeeds without it. */
  lemma OneSuccessIsEnough(cfg: Config, options: seq<string>, events: seq<Event>)
    requires options == [] || options == ["any"]
    requires IsRun(cfg, Session(Initial(options), []), events)
    ensures var end := After(cfg, Session(Initial(options), []), events);
            && (end.s.status == Going ==> end.successes == [])
            && (end.s.status == Succeeded ==> |end.successes| == 1)
  {
    RunSingle(cfg, Session(Initial(options), []), events);
  }

  // ----- which methods are used -----

  predicate Named(m: AuthMethod, name: string) {
    m.name == name || m.synonym == Some(name)
  }

  /** The method of a name is the first of the table with this name or synonym. */
  lemma {:induction false} ByNameIsFirst(table: seq<AuthMethod>, name: string)
    ensures var m := MethodByName(table, name);
            && (m.None? <==> forall i :: 0 <= i < |table| ==> !Named(table[i], name))
            && (m.Some? ==> exists i :: 0 <= i < |table| && table[i] == m.value && Named(table[i], name)
                                        && forall j :: 0 <= j < i ==> !Named(table[j], name))
  {
    if table != [] {
      ByNameIsFirst(table[1..], name);
      var m := MethodByName(table, name);
      if Named(table[0], name) {
        assert table[0] == m.value;
      } else {
        assert forall i :: 1 <= i < |table| ==> table[i] == table[1..][i - 1];
        if m.Some? {
          var i :| 0 <= i < |table| - 1 && table[1..][i] == m.value && Named(table[1..][i], name)
                   && forall j :: 0 <= j < i ==> !Named(table[1..][j], name);
          assert table[i + 1] == m.value;
        }
      }
    }
  }

  /**
   A request is logged as a success only for a method of the table with the requested name or
   synonym that is enabled and that, where lists are configured, is the next entry of one of them.
   */
  lemma SuccessWasNext(cfg: Config, x: Session, e: Event, originals: seq<string>)
    requires GoodTable(cfg.table) && GoodOriginals(originals)
    requires e.NewRequest? && Enabled(x, e) && x.s.attempt > 0 && Inv(x, x.s.options, originals)
    requires Step(cfg, x, e).successes != x.successes
    ensures exists m :: m in cfg.table && Named(m, e.name) && m.enabled
                        && Step(cfg, x, e).successes == x.successes + [Success(m.name, None)]
                        && exists i :: 0 <= i < |originals|
                                       && NextIs(Split(originals[i])[Gone(Split(originals[i]), x.successes)], m.name)
  {
    var t := Open(cfg, x.s, e.user, e.service, e.answer.userKnown);
    var m := MethodByName(cfg.table, e.name).value;
    ByNameIsFirst(cfg.table, e.name);
    assert Tried(cfg, x.s, e);
    assert Allowed(t, m.name, None) && t.options == x.s.options && t.lists == x.s.lists;
    AllowedIffNext(t, originals, x.successes, m.name);
  }

  // ----- which lists are kept -----

  /** Keeping works list by list, so the kept lists are the valid ones, in order and as often as configured. */
  lemma {:induction false} KeptConcat(table: seq<AuthMethod>, a: seq<string>, b: seq<string>)
    ensures Kept(table, a + b) == Kept(table, a) + Kept(table, b)
  {
    if a == [] {
      assert a + b == b;
    } else {
      assert (a + b)[1..] == a[1..] + b;
      KeptConcat(table, a[1..], b);
    }
  }

  lemma KeptOne(table: seq<AuthMethod>, list: string)
    ensures Kept(table, [list]) == if ListValid(table, list, true) then [list] else []
  {
    assert [list][1..] == [];
  }

  lemma {:induction false} KeptNone(table: seq<AuthMethod>, options: seq<string>)
    ensures Kept(table, options) == [] <==> forall list :: list in options ==> !ListValid(table, list, true)
  {
    if options != [] {
      KeptNone(table, options[1..]);
      assert options == [options[0]] + options[1..];
    }
  }

  /** The first request is cut off at once exactly if lists are configured and none of them is valid. */
  lemma FirstRequestRefusedIff(cfg: Config, options: seq<string>, e: Event)
    requires e.NewRequest?
    ensures Opened(cfg, Initial(options), e) <==>
            options == [] || options == ["any"] || exists list :: list in options && ListValid(cfg.table, list, true)
  {
    KeptNone(cfg.table, options);
  }
}
