/**
 The comma-separated method lists of AuthenticationMethods: the string operations that
 consume them, and the lists of tokens they stand for.
 */
module MethodLists {
  import opened Primitives
  import opened Texts

  // ----- strings -----

  /** The method part of a token: what stands before the first colon. */
  function Base(token: string): string {
    token[..Find(token, ':')]
  }

  function Split(s: string): (ts: seq<string>)
    ensures ts != []
  {
    SplitBy(s, ',')
  }

  function Join(ts: seq<string>): string {
    if ts == [] then ""
    else if |ts| == 1 then ts[0]
    else ts[0] + "," + Join(ts[1..])
  }

  lemma {:induction false} JoinSplit(s: string)
    ensures Join(Split(s)) == s
    decreases |s|
  {
    var i := Find(s, ',');
    if i < |s| {
      JoinSplit(s[i + 1..]);
      assert Split(s)[1..] == Split(s[i + 1..]);
      assert s == s[..i] + "," + s[i + 1..];
    }
  }

  lemma {:induction false} SplitTokensFree(s: string)
    ensures forall t :: t in Split(s) ==> Free(t, ',')
    decreases |s|
  {
    var i := Find(s, ',');
    if i < |s| {
      SplitTokensFree(s[i + 1..]);
    } else {
      assert s[..i] == s;
    }
  }

  // ----- matching the head of a list -----

  datatype Match = MatchNone | MatchMethod | MatchBoth | MatchPartial

  predicate AtEnd(s: string) {
    s == "" || s[0] == ','
  }

  function ListStartsWith(methods: string, name: string, submethod: Option<string>): Match {
    if !HasPrefix(methods, name) then MatchNone
    else
      var p := methods[|name|..];
      if p != "" && p[0] == ':' then
        if submethod.None? then MatchPartial
        else if !HasPrefix(p[1..], submethod.value) then MatchNone
        else if AtEnd(p[1..][|submethod.value|..]) then MatchBoth
        else MatchNone
      else if AtEnd(p) then MatchMethod
      else MatchNone
  }

  /** The list without its first method, or None when it does not start with that method. */
  function RemoveMethod(methods: string, name: string, submethod: Option<string>): Option<string> {
    var m := ListStartsWith(methods, name, submethod);
    if m != MatchMethod && m != MatchBoth then None
    else
      var p := methods[|name|..];
      var q := if m == MatchBoth then p[1..][|submethod.value|..] else p;
      Some(if q != "" && q[0] == ',' then q[1..] else q)
  }

  /** A token is satisfied by its method, or by its method and submethod. */
  predicate Satisfies(token: string, name: string, submethod: Option<string>) {
    token == name || (submethod.Some? && token == name + ":" + submethod.value)
  }

  predicate PlainName(name: string) {
    name != "" && Free(name, ',') && Free(name, ':')
  }

  predicate PlainSub(submethod: Option<string>) {
    submethod.Some? ==> Free(submethod.value, ',')
  }

  /** A string is a first token followed by a comma or nothing, and both ways of reading it agree. */
  lemma HeadToken(token: string, rest: string, p: string)
    requires Free(token, ',') && Free(p, ',')
    requires AtEnd(rest)
    ensures HasPrefix(token + rest, p) <==> HasPrefix(token, p)
    ensures HasPrefix(token, p) ==> (token + rest)[|p|..] == token[|p|..] + rest
    ensures HasPrefix(token, p) ==> (AtEnd((token + rest)[|p|..]) <==> token == p)
  {
    var s := token + rest;
    assert |token| < |p| <= |s| ==> s[..|p|][|token|] == ',';
    if HasPrefix(token, p) {
      assert s[..|p|] == token[..|p|];
      var u := token[|p|..];
      if u != "" {
        assert u[0] in token;
      } else {
        assert token == p;
      }
    }
  }

  lemma HeadMatchNoColon(token: string, rest: string, name: string, submethod: Option<string>)
    requires Free(token, ',') && AtEnd(rest) && PlainName(name)
    requires HasPrefix(token, name) && (token[|name|..] == "" || token[|name|] != ':')
    ensures ListStartsWith(token + rest, name, submethod) == if token == name then MatchMethod else MatchNone
    ensures submethod.Some? ==> token != name + ":" + submethod.value
  {
    HeadToken(token, rest, name);
    var p := (token + rest)[|name|..];
    assert p == token[|name|..] + rest;
    assert submethod.Some? ==> |name| < |name + ":" + submethod.value|
                               && (name + ":" + submethod.value)[|name|] == ':';
  }

  lemma HeadMatchColon(token: string, rest: string, name: string, submethod: Option<string>)
    requires Free(token, ',') && AtEnd(rest) && PlainName(name) && PlainSub(submethod)
    requires HasPrefix(token, name) && token[|name|..] != "" && token[|name|] == ':'
    ensures submethod.None? ==> ListStartsWith(token + rest, name, submethod) == MatchPartial
    ensures submethod.Some? ==> ListStartsWith(token + rest, name, submethod) ==
                                if token == name + ":" + submethod.value then MatchBoth else MatchNone
    ensures token != name
  {
    HeadToken(token, rest, name);
    var tail := token[|name| + 1..];
    var p := (token + rest)[|name|..];
    assert p == token[|name|..] + rest;
    assert p[1..] == tail + rest;
    assert token == name + ":" + tail;
    forall c | c in tail ensures c in token { }
    if submethod.Some? {
      HeadToken(tail, rest, submethod.value);
      assert token == name + ":" + submethod.value <==> tail == submethod.value by {
        if token == name + ":" + submethod.value {
          assert tail == token[|name| + 1..] == submethod.value;
        }
      }
    }
  }

  /**
   What list_starts_with decides, in terms of the first token: a full match exactly when the
   token is satisfied, a partial match exactly when only its method is known to agree.
   */
  lemma StartsWithIsHeadMatch(token: string, rest: string, name: string, submethod: Option<string>)
    requires Free(token, ',') && AtEnd(rest) && PlainName(name) && PlainSub(submethod)
    ensures var m := ListStartsWith(token + rest, name, submethod);
            && ((m == MatchMethod || m == MatchBoth) <==> Satisfies(token, name, submethod))
            && (m == MatchPartial <==> submethod.None? && HasPrefix(token, name + ":"))
  {
    HeadToken(token, rest, name);
    if HasPrefix(token, name) {
      if token[|name|..] == "" || token[|name|] != ':' {
        HeadMatchNoColon(token, rest, name, submethod);
      } else {
        HeadMatchColon(token, rest, name, submethod);
        assert token[..|name| + 1] == name + ":";
      }
    }
  }

  /** What remove_method leaves of a list whose first token is satisfied. */
  lemma RemoveDropsHead(token: string, rest: string, name: string, submethod: Option<string>)
    requires Free(token, ',') && AtEnd(rest) && PlainName(name) && PlainSub(submethod)
    ensures RemoveMethod(token + rest, name, submethod) ==
            if Satisfies(token, name, submethod) then Some(if rest == "" then "" else rest[1..]) else None
  {
    StartsWithIsHeadMatch(token, rest, name, submethod);
    HeadToken(token, rest, name);
    if Satisfies(token, name, submethod) {
      if token == name {
        HeadMatchNoColon(token, rest, name, submethod);
        assert (token + rest)[|name|..] == rest;
      } else {
        assert HasPrefix(token, name) && token[|name|] == ':';
        HeadMatchColon(token, rest, name, submethod);
        assert (token + rest)[|name|..][1..][|submethod.value|..] == rest;
      }
    }
  }

  predicate GoodTokens(ts: seq<string>) {
    forall t :: t in ts ==> t != "" && Free(t, ',')
  }

  lemma GoodSuffix(ts: seq<string>, k: nat)
    requires GoodTokens(ts) && k <= |ts|
    ensures GoodTokens(ts[k..])
  {
    forall t | t in ts[k..]
      ensures t in ts
    {
      var i :| 0 <= i < |ts[k..]| && ts[k..][i] == t;
      assert ts[k + i] == t;
    }
  }

  function Tail(ts: seq<string>): string {
    if |ts| <= 1 then "" else "," + Join(ts[1..])
  }

  lemma JoinHeadTail(ts: seq<string>)
    requires ts != []
    ensures Join(ts) == ts[0] + Tail(ts) && AtEnd(Tail(ts))
    ensures (if Tail(ts) == "" then "" else Tail(ts)[1..]) == Join(ts[1..])
  {
    if |ts| == 1 {
      assert ts[0] + "" == ts[0];
    } else {
      assert ts[0] + "," + Join(ts[1..]) == ts[0] + ("," + Join(ts[1..]));
    }
  }

  /** The string operation removes exactly the first token of the list the string stands for. */
  lemma RemoveRefinesTail(ts: seq<string>, name: string, submethod: Option<string>)
    requires GoodTokens(ts) && PlainName(name) && PlainSub(submethod)
    ensures RemoveMethod(Join(ts), name, submethod) ==
            if ts != [] && Satisfies(ts[0], name, submethod) then Some(Join(ts[1..])) else None
  {
    if ts != [] {
      JoinHeadTail(ts);
      RemoveDropsHead(ts[0], Tail(ts), name, submethod);
    }
  }

  lemma JoinEmpty(ts: seq<string>)
    requires GoodTokens(ts)
    ensures Join(ts) == "" <==> ts == []
  {
    if ts != [] {
      JoinHeadTail(ts);
      assert ts[0] in ts;
      assert |Join(ts)| >= |ts[0]|;
    }
  }

  // ----- which lists are valid -----

  datatype AuthMethod = AuthMethod(name: string, synonym: Option<string>, enabled: bool)

  /** Index of the first method with this primary name, or the length of the table. */
  function FindName(table: seq<AuthMethod>, name: string): (i: nat)
    ensures i <= |table|
    ensures i < |table| ==> table[i].name == name
    ensures forall j :: 0 <= j < i ==> table[j].name != name
  {
    if table == [] || table[0].name == name then 0 else 1 + FindName(table[1..], name)
  }

  predicate TokenValid(table: seq<AuthMethod>, token: string, needEnable: bool) {
    var i := FindName(table, Base(token));
    i < |table| && (needEnable ==> table[i].enabled)
  }

  predicate ListValid(table: seq<AuthMethod>, methods: string, needEnable: bool) {
    methods != "" && forall t :: t in Split(methods) ==> TokenValid(table, t, needEnable)
  }

  method MethodsValid(table: seq<AuthMethod>, methods: string, needEnable: bool) returns (ok: bool)
    ensures ok == ListValid(table, methods, needEnable)
  {
    if methods == "" {
      return false;
    }
    var rest := Some(methods);
    ghost var done: seq<string> := [];
    while rest.Some?
      invariant done + (if rest.Some? then Split(rest.value) else []) == Split(methods)
      invariant forall t :: t in done ==> TokenValid(table, t, needEnable)
      decreases if rest.Some? then |rest.value| + 1 else 0
    {
      var i := Find(rest.value, ',');
      var token := rest.value[..i];
      ghost var before := Split(rest.value);
      if i == |rest.value| {
        assert token == rest.value && before == [token];
        rest := None;
      } else {
        assert before == [token] + Split(rest.value[i + 1..]);
        rest := Some(rest.value[i + 1..]);
      }
      assert token in Split(methods);
      var good := CheckToken(table, token, needEnable);
      if !good {
        return false;
      }
      done := done + [token];
    }
    assert done == Split(methods);
    return true;
  }

  /** The search for one token's method in the table. */
  method CheckToken(table: seq<AuthMethod>, token: string, needEnable: bool) returns (good: bool)
    ensures good == TokenValid(table, token, needEnable)
  {
    var base := token[..Find(token, ':')];
    var j := 0;
    while j < |table|
      invariant 0 <= j <= |table|
      invariant j <= FindName(table, base)
    {
      if table[j].name != base {
        j := j + 1;
        continue;
      }
      return !(needEnable && !table[j].enabled);
    }
    return false;
  }

  lemma ValidTokensGood(table: seq<AuthMethod>, methods: string, needEnable: bool)
    requires ListValid(table, methods, needEnable)
    requires forall m :: m in table ==> m.name != ""
    ensures GoodTokens(Split(methods))
  {
    SplitTokensFree(methods);
    forall t | t in Split(methods)
      ensures t != ""
    {
      assert TokenValid(table, t, needEnable);
      var i := FindName(table, Base(t));
      assert table[i] in table;
    }
  }
}
