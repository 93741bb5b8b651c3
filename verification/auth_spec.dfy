/** The server side of user authentication as a step function over its mutable context. */
module AuthSpec {
  import opened Primitives
  import opened MethodLists

  datatype Config = Config(table: seq<AuthMethod>, maxTries: nat)

  /** Going on, authenticated, disconnected by the server, or stopped by a fatal error. */
  datatype AuthStatus = Going | Succeeded | Disconnected | Died

  datatype AuthState = AuthState(
    options: seq<string>,       // AuthenticationMethods as configured
    lists: seq<string>,         // what is left of each list that passed the set-up
    attempt: nat,
    failures: int,
    valid: bool,
    postponed: bool,
    serverCausedFailure: bool,
    user: string,
    service: string,
    status: AuthStatus)

  /** What the environment answers while one request is processed. */
  datatype Answer = Answer(userKnown: bool, authenticated: bool, postponed: bool, serverCausedFailure: bool,
                           rootDenied: bool, accountDenied: bool)

  const MAX_ATTEMPTS: nat := 1024

  function Initial(options: seq<string>): AuthState {
    AuthState(options, [], 0, 0, false, false, false, "", "", Going)
  }

  // ----- the method table -----

  function MethodByName(table: seq<AuthMethod>, name: string): Option<AuthMethod> {
    if table == [] then None
    else if table[0].name == name || table[0].synonym == Some(name) then Some(table[0])
    else MethodByName(table[1..], name)
  }

  predicate Allowed(s: AuthState, name: string, submethod: Option<string>) {
    s.options == [] || exists i :: 0 <= i < |s.lists| && ListStartsWith(s.lists[i], name, submethod) != MatchNone
  }

  /** The method a request asks for, if it is known, enabled and next in some list. */
  function MethodLookup(table: seq<AuthMethod>, s: AuthState, name: string): Option<AuthMethod> {
    var m := MethodByName(table, name);
    if m.Some? && m.value.enabled && Allowed(s, m.value.name, None) then m else None
  }

  // ----- the lists -----

  function Normalise(options: seq<string>): seq<string> {
    if options == ["any"] then [] else options
  }

  function Kept(table: seq<AuthMethod>, options: seq<string>): seq<string> {
    if options == [] then []
    else (if ListValid(table, options[0], true) then [options[0]] else []) + Kept(table, options[1..])
  }

  function SetUp(table: seq<AuthMethod>, s: AuthState): AuthState {
    var options := Normalise(s.options);
    if options == [] then s.(options := options)
    else
      var kept := Kept(table, options);
      s.(options := options, lists := kept, status := if kept == [] then Disconnected else s.status)
  }

  datatype Update = NotListed | Partial | Complete

  /** One success applied to every list from `i` on; it stops at the first list it completes. */
  function UpdateFrom(lists: seq<string>, i: nat, name: string, submethod: Option<string>, found: bool)
    : (seq<string>, Update)
    requires i <= |lists|
    decreases |lists| - i
  {
    if i == |lists| then (lists, if found then Partial else NotListed)
    else
      var r := RemoveMethod(lists[i], name, submethod);
      if r.None? then UpdateFrom(lists, i + 1, name, submethod, found)
      else if r.value == "" then (lists[i := ""], Complete)
      else UpdateFrom(lists[i := r.value], i + 1, name, submethod, true)
  }

  // ----- one authentication result -----

  /** The success that reaches the lists, if this result is one: the primary name and the submethod. */
  function Credited(cfg: Config, s: AuthState, authenticated: bool, name: string, rootDenied: bool): Option<string> {
    var m := MethodByName(cfg.table, name);
    if authenticated && s.valid && !s.postponed && m.Some? && !rootDenied then Some(m.value.name) else None
  }

  function Fail(cfg: Config, s: AuthState, partial: bool, name: string): AuthState {
    var t := if !partial && !s.serverCausedFailure && (s.attempt > 1 || name != "none")
             then s.(failures := s.failures + 1) else s;
    if t.failures >= cfg.maxTries then t.(status := Disconnected) else t
  }

  function Accept(s: AuthState, accountDenied: bool): AuthState {
    s.(status := if accountDenied then Died else Succeeded)
  }

  function Finish(cfg: Config, s: AuthState, authenticated: bool, packetMethod: string, submethod: Option<string>,
                  rootDenied: bool, accountDenied: bool): AuthState {
    var m := MethodByName(cfg.table, packetMethod);
    if authenticated && (!s.valid || s.postponed || m.None?) then s.(status := Died)
    else
      var name := if authenticated then m.value.name else packetMethod;
      if !authenticated || rootDenied then
        if s.postponed then s else Fail(cfg, s, false, name)
      else if s.options == [] then Accept(s, accountDenied)
      else
        var (lists, u) := UpdateFrom(s.lists, 0, name, submethod, false);
        match u
        case NotListed => s.(lists := lists, status := Died)
        case Partial => Fail(cfg, s.(lists := lists), true, name)
        case Complete => Accept(s.(lists := lists), accountDenied)
  }

  // ----- one request -----

  /** The user named in a request may carry a style after a colon, which the account is chosen without. */
  function Open(cfg: Config, s: AuthState, fullName: string, service: string, userKnown: bool): AuthState {
    var user := Base(fullName);
    var t := s.(attempt := s.attempt + 1);
    if s.attempt >= MAX_ATTEMPTS then s.(status := Disconnected)
    else if s.attempt == 0 then
      SetUp(cfg.table, t.(user := user, service := service, valid := userKnown && service == "ssh-connection"))
    else if user != s.user || service != s.service then t.(status := Disconnected)
    else t
  }

  function Request(cfg: Config, s: AuthState, user: string, service: string, name: string, a: Answer): AuthState {
    var t := Open(cfg, s, user, service, a.userKnown);
    if t.status != Going then t else Attempt(cfg, t, name, a)
  }

  /** The method is tried if it may be, and the result judged; otherwise the request fails. */
  function Attempt(cfg: Config, t: AuthState, name: string, a: Answer): AuthState {
    var u := t.(postponed := false, serverCausedFailure := false);
    var m := MethodLookup(cfg.table, u, name);
    if m.Some? && u.failures < cfg.maxTries then
      Finish(cfg, u.(postponed := a.postponed, serverCausedFailure := a.serverCausedFailure),
             a.authenticated, name, None, a.rootDenied, a.accountDenied)
    else
      Finish(cfg, u, false, name, None, a.rootDenied, a.accountDenied)
  }
}
