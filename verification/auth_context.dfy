/** The authentication context that the request handlers update in place. */
module AuthContext {
  import opened Primitives
  import opened MethodLists
  import opened AuthSpec

  class Authctxt {
    const cfg: Config
    var options: seq<string>
    var authMethods: seq<string>
    var attempt: nat
    var failures: int
    var valid: bool
    var postponed: bool
    var serverCausedFailure: bool
    var user: string
    var service: string
    var status: AuthStatus

    function View(): AuthState
      reads this
    {
      AuthState(options, authMethods, attempt, failures, valid, postponed, serverCausedFailure, user, service, status)
    }

    constructor (cfg: Config, options: seq<string>)
      ensures this.cfg == cfg && View() == Initial(options)
    {
      this.cfg := cfg;
      this.options := options;
      authMethods, attempt, failures := [], 0, 0;
      valid, postponed, serverCausedFailure := false, false, false;
      user, service, status := "", "", Going;
    }

    /** Keeps the configured lists whose methods are all known and enabled; -1 when none is left. */
    method SetupMethodsLists() returns (r: int)
      modifies this`options, this`authMethods
      ensures options == Normalise(old(options))
      ensures authMethods == if options == [] then old(authMethods) else Kept(cfg.table, options)
      ensures r == if options != [] && authMethods == [] then -1 else 0
    {
      if |options| == 1 && options[0] == "any" {
        options := [];
      }
      if |options| == 0 {
        return 0;
      }
      authMethods := [];
      var i := 0;
      while i < |options|
        invariant 0 <= i <= |options|
        invariant options == Normalise(old(options))
        invariant authMethods + Kept(cfg.table, options[i..]) == Kept(cfg.table, options)
      {
        var ok := MethodsValid(cfg.table, options[i], true);
        assert options[i..][1..] == options[i + 1..];
        if ok {
          authMethods := authMethods + [options[i]];
        }
        i := i + 1;
      }
      assert options[i..] == [];
      if |authMethods| == 0 {
        return -1;
      }
      return 0;
    }

    method MethodAllowed(name: string, submethod: Option<string>) returns (ok: bool)
      ensures ok == Allowed(View(), name, submethod)
    {
      if |options| == 0 {
        return true;
      }
      var i := 0;
      while i < |authMethods|
        invariant 0 <= i <= |authMethods|
        invariant forall j :: 0 <= j < i ==> ListStartsWith(authMethods[j], name, submethod) == MatchNone
      {
        if ListStartsWith(authMethods[i], name, submethod) != MatchNone {
          return true;
        }
        i := i + 1;
      }
      return false;
    }

    method Lookup(name: string) returns (found: bool)
      ensures found == MethodLookup(cfg.table, View(), name).Some?
    {
      var m := MethodByName(cfg.table, name);
      if m.None? || !m.value.enabled {
        return false;
      }
      found := MethodAllowed(m.value.name, None);
    }

    /** Takes a successful method off the front of every list; stops at the first list this completes. */
    method UpdateMethodsLists(name: string, submethod: Option<string>) returns (u: Update)
      modifies this`authMethods
      ensures (authMethods, u) == UpdateFrom(old(authMethods), 0, name, submethod, false)
    {
      var found := false;
      var i := 0;
      while i < |authMethods|
        invariant 0 <= i <= |authMethods|
        invariant UpdateFrom(authMethods, i, name, submethod, found) ==
                  UpdateFrom(old(authMethods), 0, name, submethod, false)
        decreases |authMethods| - i
      {
        var r := RemoveMethod(authMethods[i], name, submethod);
        if r.Some? {
          authMethods := authMethods[i := r.value];
          found := true;
          if authMethods[i] == "" {
            return Complete;
          }
        }
        i := i + 1;
      }
      return if found then Partial else NotListed;
    }

    method UserauthFinish(authenticated: bool, packetMethod: string, submethod: Option<string>,
                          rootDenied: bool, accountDenied: bool)
      requires status == Going
      modifies this
      ensures View() == Finish(cfg, old(View()), authenticated, packetMethod, submethod, rootDenied, accountDenied)
    {
      var auth := authenticated;
      var partial := false;
      var name := packetMethod;
      if auth {
        var m := MethodByName(cfg.table, name);
        if !valid || postponed || m.None? {
          status := Died;
          return;
        }
        name := m.value.name;
      }
      if auth && rootDenied {
        auth := false;
      }
      if auth && |options| != 0 {
        var u := UpdateMethodsLists(name, submethod);
        if u == NotListed {
          status := Died;
          return;
        }
        if u == Partial {
          auth := false;
          partial := true;
        }
      }
      if postponed {
        return;
      }
      if auth && accountDenied {
        status := Died;
        return;
      }
      if auth {
        status := Succeeded;
      } else {
        if !partial && !serverCausedFailure && (attempt > 1 || name != "none") {
          failures := failures + 1;
        }
        if failures >= cfg.maxTries {
          status := Disconnected;
        }
      }
    }

    /** The first request fixes the user and the service, and sets up the lists. */
    method StartUser(user: string, service: string, userKnown: bool) returns (go: bool)
      requires status == Going
      modifies this
      ensures View() == SetUp(cfg.table, old(View()).(user := user, service := service,
                                                      valid := userKnown && service == "ssh-connection"))
      ensures go <==> status == Going
    {
      this.user := user;
      this.service := service;
      valid := userKnown && service == "ssh-connection";
      var r := SetupMethodsLists();
      go := r == 0;
      if !go {
        status := Disconnected;
      }
    }

    /** The checks that open a request; false when the connection is dropped. */
    method OpenRequest(fullName: string, service: string, userKnown: bool) returns (go: bool)
      requires status == Going
      modifies this
      ensures View() == Open(cfg, old(View()), fullName, service, userKnown)
      ensures go <==> status == Going
    {
      var user := Base(fullName);
      if attempt >= MAX_ATTEMPTS {
        status := Disconnected;
        return false;
      }
      attempt := attempt + 1;
      if attempt == 1 {
        go := StartUser(user, service, userKnown);
        return;
      } else if user != this.user || service != this.service {
        status := Disconnected;
        return false;
      }
      return true;
    }

    method InputUserauthRequest(user: string, service: string, name: string, a: Answer)
      requires status == Going
      modifies this
      ensures View() == Request(cfg, old(View()), user, service, name, a)
    {
      var go := OpenRequest(user, service, a.userKnown);
      if go {
        TryMethod(name, a);
      }
    }

    method TryMethod(name: string, a: Answer)
      requires status == Going
      modifies this
      ensures View() == Attempt(cfg, old(View()), name, a)
    {
      postponed := false;
      serverCausedFailure := false;
      var authenticated := false;
      var found := Lookup(name);
      if found && failures < cfg.maxTries {
        authenticated := a.authenticated;
        postponed := a.postponed;
        serverCausedFailure := a.serverCausedFailure;
      }
      UserauthFinish(authenticated, name, None, a.rootDenied, a.accountDenied);
    }
  }
}
