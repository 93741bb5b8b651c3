/**
 The index from host names to the services that carry them: what the informer events and a
 name claim do to the cache, and the relation the cache stands for.
 */
module ServiceIndex {
  import opened Primitives
  import opened Texts
  import opened ServiceText

  const SERVICE_SUFFIX: string := ".myservices.local"
  const SERVICE_PREFIX: string := "dynamic-service-"
  const DEFAULT_NS: string := "default"

  /** A missing annotation reads as the empty host name. */
  datatype Service = Service(ns: string, name: string, host: string, loadBalancer: bool)

  datatype Event =
    | Added(s: Service)
    | Updated(before: Service, now: Service)
    | Deleted(s: Service)
    | Claimed(user: string, fails: set<string>)   // the references whose patch the server refuses

  type Cache = map<string, string>

  function Key(s: Service): string {
    TrimSuffix(s.host, SERVICE_SUFFIX)
  }

  function Ref(s: Service): string {
    s.ns + "/" + s.name
  }

  predicate Managed(s: Service) {
    s.loadBalancer && s.host != "" && EndsWith(s.host, SERVICE_SUFFIX)
  }

  /** An update that takes the service away from its old host name. */
  predicate Drops(o: Service, n: Service) {
    Key(o) != "" && Key(o) != Key(n)
  }

  // ----- the cache -----

  function AppendEntry(c: Cache, key: string, val: string): Cache {
    if key !in c then c[key := val] else c[key := AppendText(c[key], val)]
  }

  predicate IsSpace(c: char) {
    c in " \t\n\r\U{B}\U{C}\U{85}\U{A0}"
  }

  /** strings.TrimSpace leaves nothing */
  predicate Blank(s: string) {
    forall c :: c in s ==> IsSpace(c)
  }

  function RemoveEntry(c: Cache, key: string, val: string): Cache
    requires val != ""
  {
    if key !in c then c
    else
      var rest := RemoveAll(c[key], val);
      if Blank(rest) then c - {key} else c[key := rest]
  }

  // ----- claiming a name -----

  function ClaimKey(user: string): string {
    SERVICE_PREFIX + user
  }

  function Primary(user: string): string {
    DEFAULT_NS + "/" + ClaimKey(user)
  }

  predicate Stays(e: string, primary: string, fails: set<string>) {
    e != "" && e != primary && '/' in e && e in fails
  }

  /** The entries that stay: other services whose annotation could not be removed. */
  function Kept(entries: seq<string>, primary: string, fails: set<string>): seq<string> {
    if entries == [] then []
    else (if Stays(entries[0], primary, fails) then [entries[0]] else []) + Kept(entries[1..], primary, fails)
  }

  function LoadOrEmpty(c: Cache, key: string): Cache {
    if key in c then c else c[key := ""]
  }

  /** The cache after a claim, and the name it returns. */
  function Claim(c: Cache, user: string, fails: set<string>): (Cache, string) {
    var key := ClaimKey(user);
    var c1 := LoadOrEmpty(c, key);
    var kept := Kept(Pieces(TrimSuffix(c1[key], ";")), Primary(user), fails);
    if kept == [] then (AppendEntry(c1, key, Primary(user) + ";"), key) else (c1, "")
  }

  function Handle(c: Cache, e: Event): Cache {
    match e
    case Added(s) => if Managed(s) then AppendEntry(c, Key(s), Ref(s) + ";") else c
    case Updated(o, n) =>
      var c1 := if Drops(o, n) then RemoveEntry(c, Key(o), Ref(o) + ";") else c;
      if Key(n) != "" then AppendEntry(c1, Key(n), Ref(n) + ";") else c1
    case Deleted(s) => if Managed(s) then RemoveEntry(c, Key(s), Ref(s) + ";") else c
    case Claimed(user, fails) => Claim(c, user, fails).0
  }

  function RunCache(es: seq<Event>): Cache {
    if es == [] then map[] else Handle(RunCache(es[..|es| - 1]), es[|es| - 1])
  }

  // ----- the relation the cache stands for -----

  type Relation = set<(string, string)>

  predicate Refused(rel: Relation, user: string, fails: set<string>) {
    exists p :: p in rel && p.0 == ClaimKey(user) && p.1 != Primary(user) && p.1 in fails
  }

  function Moved(rel: Relation, e: Event): Relation {
    match e
    case Added(s) => if Managed(s) then rel + {(Key(s), Ref(s))} else rel
    case Updated(o, n) =>
      var r1 := if Drops(o, n) then rel - {(Key(o), Ref(o))} else rel;
      if Key(n) != "" then r1 + {(Key(n), Ref(n))} else r1
    case Deleted(s) => if Managed(s) then rel - {(Key(s), Ref(s))} else rel
    case Claimed(user, fails) => if Refused(rel, user, fails) then rel else rel + {(ClaimKey(user), Primary(user))}
  }

  function RunRelation(es: seq<Event>): Relation {
    if es == [] then {} else Moved(RunRelation(es[..|es| - 1]), es[|es| - 1])
  }

  /** The references a cache holds under a key, in order. */
  function Refs(c: Cache, key: string): seq<string> {
    if key !in c || c[key] == "" then [] else Pieces(TrimSuffix(c[key], ";"))
  }

  predicate Distinct(ts: seq<string>) {
    forall i, j :: 0 <= i < j < |ts| ==> ts[i] != ts[j]
  }

  /** A reference as the handlers build it; it cannot contain the separator. */
  predicate Plain(t: string) {
    Free(t, ';') && '/' in t
  }

  predicate Readable(c: Cache, k: string) {
    && (k in c ==> c[k] == Render(Refs(c, k)))
    && Distinct(Refs(c, k))
    && (forall t :: t in Refs(c, k) ==> Plain(t))
  }

  /** Under each key the cache spells out exactly the references that the relation has there, once each. */
  ghost predicate Stands(c: Cache, rel: Relation) {
    && (forall k :: Readable(c, k))
    && (forall k, t :: (k, t) in rel <==> t in Refs(c, k))
  }

  lemma StoredRefs(c: Cache, key: string, ts: seq<string>)
    requires key in c && c[key] == Render(ts) && Tokens(ts)
    ensures Refs(c, key) == ts
  {
    SplitRender(ts);
  }

  lemma OtherKey(c: Cache, d: Cache, k: string)
    requires (k in c) == (k in d) && (k in c ==> c[k] == d[k])
    ensures Refs(c, k) == Refs(d, k)
    ensures Readable(c, k) <==> Readable(d, k)
  {
  }

  predicate SameBut(c: Cache, d: Cache, key: string) {
    && (forall k :: k in c && k != key ==> k in d && c[k] == d[k])
    && (forall k :: k in d && k != key ==> k in c)
  }

  /** A cache that changes under one key only stands for what changes there. */
  lemma Replaced(c: Cache, rel: Relation, d: Cache, key: string, rel': Relation)
    requires Stands(c, rel) && SameBut(c, d, key)
    requires Readable(d, key)
    requires forall k, t :: (k, t) in rel' <==> if k == key then t in Refs(d, key) else (k, t) in rel
    ensures Stands(d, rel')
  {
    forall k
      ensures Readable(d, k)
      ensures forall t :: (k, t) in rel' <==> t in Refs(d, k)
    {
      assert Readable(c, k);
      if k != key { OtherKey(c, d, k); }
    }
  }

  predicate AppendIsSound(c: Cache, key: string, t: string) {
    t in Refs(c, key) || !Clashes(Refs(c, key), t)
  }

  predicate RemoveIsSound(c: Cache, key: string, t: string) {
    !Clashes(Refs(c, key), t)
  }

  lemma AppendRefs(c: Cache, key: string, t: string)
    requires Readable(c, key) && Plain(t) && AppendIsSound(c, key, t)
    ensures var d := AppendEntry(c, key, t + ";");
            Refs(d, key) == WithToken(Refs(c, key), t) && Readable(d, key)
  {
    var ts := Refs(c, key);
    AppendIsExact(ts, t);
    var d := AppendEntry(c, key, t + ";");
    assert d[key] == Render(WithToken(ts, t)) by {
      if key !in c { assert Render([t]) == t + ";"; }
    }
    StoredRefs(d, key, WithToken(ts, t));
  }

  /** Appending under a key is insertion exactly when the reference is there already or nothing there ends with it. */
  lemma AppendStandsIff(c: Cache, rel: Relation, key: string, t: string)
    requires Stands(c, rel) && Plain(t)
    ensures Stands(AppendEntry(c, key, t + ";"), rel + {(key, t)}) <==> AppendIsSound(c, key, t)
  {
    assert Readable(c, key);
    var d := AppendEntry(c, key, t + ";");
    if AppendIsSound(c, key, t) {
      AppendRefs(c, key, t);
      Replaced(c, rel, d, key, rel + {(key, t)});
    } else {
      ContainsRender(Refs(c, key), t);
      assert key in c && d == c;
      assert (key, t) in rel + {(key, t)};
    }
  }

  lemma {:induction false} WithoutDistinct(ts: seq<string>, t: string)
    requires Distinct(ts)
    ensures Distinct(Without(ts, t))
  {
    if ts != [] {
      WithoutDistinct(ts[1..], t);
      WithoutMembers(ts[1..], t);
      assert forall i :: 0 < i < |ts| ==> ts[i] == ts[1..][i - 1] && ts[0] != ts[i];
      assert ts[0] !in ts[1..];
    }
  }

  lemma BlankRender(ts: seq<string>)
    ensures Blank(Render(ts)) <==> ts == []
  {
    if ts != [] {
      assert Render(ts)[|ts[0]|] == ';' && Render(ts)[|ts[0]|] in Render(ts);
    }
  }

  lemma RemoveRefs(c: Cache, key: string, t: string)
    requires Readable(c, key) && Plain(t) && RemoveIsSound(c, key, t)
    ensures var d := RemoveEntry(c, key, t + ";");
            Refs(d, key) == Without(Refs(c, key), t) && Readable(d, key)
  {
    var ts := Refs(c, key);
    RemoveIsExact(ts, t);
    var d := RemoveEntry(c, key, t + ";");
    var left := Without(ts, t);
    WithoutMembers(ts, t);
    WithoutDistinct(ts, t);
    BlankRender(left);
    if key in c && left != [] {
      StoredRefs(d, key, left);
    }
  }

  /** Distinct tokens take the same room in any order. */
  lemma {:induction false} RoomOf(ts: seq<string>, us: seq<string>)
    requires Distinct(ts) && Distinct(us) && forall t :: t in ts <==> t in us
    ensures |Render(ts)| == |Render(us)|
    decreases |ts|
  {
    if ts == [] {
      assert forall i :: 0 <= i < |us| ==> us[i] in us;
    } else {
      var t := ts[0];
      RoomWithout(ts, t);
      RoomWithout(us, t);
      WithoutMembers(ts, t);
      WithoutMembers(us, t);
      WithoutDistinct(ts, t);
      WithoutDistinct(us, t);
      WithoutShorter(ts[1..], t);
      RoomOf(Without(ts, t), Without(us, t));
    }
  }

  lemma {:induction false} WithoutShorter(ts: seq<string>, t: string)
    ensures |Without(ts, t)| <= |ts|
  {
    if ts != [] {
      WithoutShorter(ts[1..], t);
    }
  }

  lemma {:induction false} RoomWithout(ts: seq<string>, t: string)
    requires Distinct(ts)
    ensures |Render(ts)| == |Render(Without(ts, t))| + if t in ts then |t| + 1 else 0
  {
    if ts != [] {
      var x, rest := ts[0], ts[1..];
      assert forall i :: 0 < i < |ts| ==> ts[i] == rest[i - 1] && ts[0] != ts[i];
      assert x !in rest && ts == [x] + rest;
      RoomWithout(rest, t);
      assert x != t ==> Without(ts, t)[1..] == Without(rest, t);
    }
  }

  /** Removing under a key is deletion exactly when nothing else there ends with the reference. */
  lemma RemoveStandsIff(c: Cache, rel: Relation, key: string, t: string)
    requires Stands(c, rel) && Plain(t)
    ensures Stands(RemoveEntry(c, key, t + ";"), rel - {(key, t)}) <==> RemoveIsSound(c, key, t)
  {
    assert Readable(c, key);
    var d, ts := RemoveEntry(c, key, t + ";"), Refs(c, key);
    WithoutMembers(ts, t);
    if RemoveIsSound(c, key, t) {
      RemoveRefs(c, key, t);
      Replaced(c, rel, d, key, rel - {(key, t)});
    } else if Stands(d, rel - {(key, t)}) {
      assert Readable(d, key);
      RemovedIsShort(c, key, t);
      WithoutDistinct(ts, t);
      assert forall x :: x in Refs(d, key) <==> (key, x) in rel - {(key, t)};
      assert forall x :: x in ts <==> (key, x) in rel;
      RoomOf(Refs(d, key), Without(ts, t));
      assert false;
    }
  }

  /** A clash takes away more than the reference. */
  lemma RemovedIsShort(c: Cache, key: string, t: string)
    requires Readable(c, key) && Plain(t) && Clashes(Refs(c, key), t)
    ensures var d := RemoveEntry(c, key, t + ";");
            |if key in d then d[key] else ""| < |Render(Without(Refs(c, key), t))|
  {
    RemoveCases(Refs(c, key), t);
    assert key in c;
  }

  lemma {:induction false} KeptMembers(entries: seq<string>, primary: string, fails: set<string>)
    ensures forall e :: e in Kept(entries, primary, fails) <==>
                        e in entries && e != "" && e != primary && '/' in e && e in fails
  {
    if entries != [] {
      KeptMembers(entries[1..], primary, fails);
      assert entries == [entries[0]] + entries[1..];
    }
  }

  /** A claim fails exactly when some other reference to the name cannot be cleared. */
  lemma ClaimOutcome(c: Cache, rel: Relation, user: string, fails: set<string>)
    requires Stands(c, rel)
    ensures Claim(c, user, fails).1 == if Refused(rel, user, fails) then "" else ClaimKey(user)
    ensures Claim(c, user, fails).0 ==
            var c1 := LoadOrEmpty(c, ClaimKey(user));
            if Refused(rel, user, fails) then c1 else AppendEntry(c1, ClaimKey(user), Primary(user) + ";")
  {
    var key := ClaimKey(user);
    var c1 := LoadOrEmpty(c, key);
    assert Readable(c, key);
    var ts := Refs(c, key);
    assert Refs(c1, key) == ts && c1[key] == Render(ts) && Tokens(ts);
    SplitRender(ts);
    var entries := Pieces(TrimSuffix(c1[key], ";"));
    KeptMembers(entries, Primary(user), fails);
    var kept := Kept(entries, Primary(user), fails);
    assert forall t :: t in ts <==> (key, t) in rel;
    assert kept != [] ==> kept[0] in kept && (key, kept[0]) in rel;
    if Refused(rel, user, fails) {
      var p :| p in rel && p.0 == key && p.1 != Primary(user) && p.1 in fails;
      assert p == (key, p.1);
      assert p.1 in kept;
    }
  }

  /** A name that is looked up is stored with an empty text, which lists nothing. */
  lemma LookedUpStands(c: Cache, rel: Relation, key: string)
    requires Stands(c, rel)
    ensures Stands(LoadOrEmpty(c, key), rel) && Refs(LoadOrEmpty(c, key), key) == Refs(c, key)
  {
    assert Readable(c, key);
    var c1 := LoadOrEmpty(c, key);
    assert Readable(c1, key);
    Replaced(c, rel, c1, key, rel);
  }

  /** What is kept never contains the claimed name itself, so a lone kept entry is not the primary. */
  lemma {:induction false} PrimaryNeverKept(entries: seq<string>, primary: string, fails: set<string>)
    ensures primary !in Kept(entries, primary, fails)
  {
    KeptMembers(entries, primary, fails);
  }

  // ----- events -----

  predicate PlainRefs(e: Event) {
    match e
    case Added(s) => Plain(Ref(s))
    case Updated(o, n) => Plain(Ref(o)) && Plain(Ref(n))
    case Deleted(s) => Plain(Ref(s))
    case Claimed(user, _) => Plain(Primary(user))
  }

  /** No string edit of this event meets a reference, under the same key, that ends with its own. */
  predicate SoundStep(c: Cache, rel: Relation, e: Event) {
    match e
    case Added(s) => Managed(s) ==> AppendIsSound(c, Key(s), Ref(s))
    case Updated(o, n) =>
      && (Drops(o, n) ==> RemoveIsSound(c, Key(o), Ref(o)))
      && (Key(n) != "" ==> AppendIsSound(c, Key(n), Ref(n)))
    case Deleted(s) => Managed(s) ==> RemoveIsSound(c, Key(s), Ref(s))
    case Claimed(user, fails) => !Refused(rel, user, fails) ==> AppendIsSound(c, ClaimKey(user), Primary(user))
  }

  /** An append elsewhere does not repair a key. */
  lemma OtherKeyStays(c: Cache, rel: Relation, d: Cache, key: string, r: Relation, other: string, t: string)
    requires Stands(c, rel) && SameBut(c, d, key) && other != key
    requires forall k, x :: k != key ==> ((k, x) in r <==> (k, x) in rel)
    requires Stands(AppendEntry(d, other, t + ";"), r + {(other, t)})
    ensures Stands(d, r)
  {
    var f := AppendEntry(d, other, t + ";");
    forall k
      ensures Readable(d, k) && forall x :: (k, x) in r <==> x in Refs(d, k)
    {
      assert Readable(f, k) && Readable(c, k);
      if k == key {
        OtherKey(f, d, k);
        assert forall x :: (k, x) in r <==> (k, x) in r + {(other, t)};
      } else {
        OtherKey(c, d, k);
      }
    }
  }

  /** A change under one key and an append under another are judged separately. */
  lemma AppendElsewhereIff(c: Cache, rel: Relation, d: Cache, key: string, r: Relation, other: string, t: string)
    requires Stands(c, rel) && SameBut(c, d, key) && other != key && Plain(t)
    requires forall k, x :: k != key ==> ((k, x) in r <==> (k, x) in rel)
    ensures Stands(AppendEntry(d, other, t + ";"), r + {(other, t)}) <==>
            Stands(d, r) && AppendIsSound(c, other, t)
  {
    OtherKey(c, d, other);
    if Stands(d, r) {
      AppendStandsIff(d, r, other, t);
    } else if Stands(AppendEntry(d, other, t + ";"), r + {(other, t)}) {
      OtherKeyStays(c, rel, d, key, r, other, t);
    }
  }

  lemma UpdateStandsIff(c: Cache, rel: Relation, o: Service, n: Service)
    requires Stands(c, rel) && Plain(Ref(o)) && Plain(Ref(n)) && Drops(o, n) && Key(n) != ""
    ensures Stands(Handle(c, Updated(o, n)), Moved(rel, Updated(o, n))) <==> SoundStep(c, rel, Updated(o, n))
  {
    var d, r := RemoveEntry(c, Key(o), Ref(o) + ";"), rel - {(Key(o), Ref(o))};
    RemoveStandsIff(c, rel, Key(o), Ref(o));
    AppendElsewhereIff(c, rel, d, Key(o), r, Key(n), Ref(n));
  }

  /** The cache follows the relation through an event exactly when the event's edits are sound. */
  lemma StepStandsIff(c: Cache, rel: Relation, e: Event)
    requires Stands(c, rel) && PlainRefs(e)
    ensures Stands(Handle(c, e), Moved(rel, e)) <==> SoundStep(c, rel, e)
  {
    match e
    case Added(s) => AppendStandsIff(c, rel, Key(s), Ref(s));
    case Updated(o, n) =>
      if Drops(o, n) && Key(n) != "" {
        UpdateStandsIff(c, rel, o, n);
      } else {
        RemoveStandsIff(c, rel, Key(o), Ref(o));
        AppendStandsIff(c, rel, Key(n), Ref(n));
      }
    case Deleted(s) => RemoveStandsIff(c, rel, Key(s), Ref(s));
    case Claimed(user, fails) => ClaimStandsIff(c, rel, user, fails);
  }

  lemma ClaimStandsIff(c: Cache, rel: Relation, user: string, fails: set<string>)
    requires Stands(c, rel) && Plain(Primary(user))
    ensures var e := Claimed(user, fails); Stands(Handle(c, e), Moved(rel, e)) <==> SoundStep(c, rel, e)
  {
    var key := ClaimKey(user);
    ClaimOutcome(c, rel, user, fails);
    LookedUpStands(c, rel, key);
    AppendStandsIff(LoadOrEmpty(c, key), rel, key, Primary(user));
  }

  // ----- runs -----

  /** Every event of the run is sound in the cache it meets. */
  predicate SoundRun(es: seq<Event>) {
    es == [] ||
    (var init := es[..|es| - 1];
     SoundRun(init) && SoundStep(RunCache(init), RunRelation(init), es[|es| - 1]))
  }

  /** The cache stands for the relation now and did after every earlier event. */
  ghost predicate AlwaysStands(es: seq<Event>) {
    Stands(RunCache(es), RunRelation(es)) && (es != [] ==> AlwaysStands(es[..|es| - 1]))
  }

  predicate AllPlain(es: seq<Event>) {
    forall i :: 0 <= i < |es| ==> PlainRefs(es[i])
  }

  /**
   After every run the cache spells out the relation, each reference once under each of its keys;
   and it does so after each event on the way exactly when every event was sound.
   */
  lemma {:induction false} CacheStandsForRelation(es: seq<Event>)
    requires AllPlain(es)
    ensures SoundRun(es) ==> Stands(RunCache(es), RunRelation(es))
    ensures AlwaysStands(es) <==> SoundRun(es)
  {
    if es != [] {
      var init := es[..|es| - 1];
      CacheStandsForRelation(init);
      if SoundRun(init) {
        StepStandsIff(RunCache(init), RunRelation(init), es[|es| - 1]);
      }
    }
  }

  // ----- references that never clash -----

  /** References that can share the index under any keys: no one ends with another. */
  predicate Universe(u: set<string>) {
    forall x, t :: x in u && t in u && EndsWith(x, t) ==> x == t
  }

  predicate Within(e: Event, u: set<string>) {
    match e
    case Added(s) => Ref(s) in u
    case Updated(o, n) => Ref(o) in u && Ref(n) in u
    case Deleted(s) => Ref(s) in u
    case Claimed(user, _) => Primary(user) in u
  }

  lemma RefsWithin(c: Cache, rel: Relation, u: set<string>, k: string, t: string)
    requires Stands(c, rel) && Universe(u) && t in u && forall p :: p in rel ==> p.1 in u
    ensures !Clashes(Refs(c, k), t)
  {
    assert forall x :: x in Refs(c, k) ==> (k, x) in rel && (k, x).1 in u;
  }

  /** A run over references none of which ends with another is sound. */
  lemma {:induction false} NoClashIsSound(es: seq<Event>, u: set<string>)
    requires AllPlain(es) && Universe(u) && forall i :: 0 <= i < |es| ==> Within(es[i], u)
    ensures SoundRun(es) && forall p :: p in RunRelation(es) ==> p.1 in u
  {
    if es != [] {
      var init, e := es[..|es| - 1], es[|es| - 1];
      NoClashIsSound(init, u);
      CacheStandsForRelation(init);
      var c, rel := RunCache(init), RunRelation(init);
      match e
      case Added(s) => RefsWithin(c, rel, u, Key(s), Ref(s));
      case Updated(o, n) => RefsWithin(c, rel, u, Key(o), Ref(o)); RefsWithin(c, rel, u, Key(n), Ref(n));
      case Deleted(s) => RefsWithin(c, rel, u, Key(s), Ref(s));
      case Claimed(user, _) => RefsWithin(c, rel, u, ClaimKey(user), Primary(user));
    }
  }

  // ----- live services -----

  type Live = map<string, Service>

  /** What an informer can report: an update or a deletion shows the service it last reported. */
  predicate Reported(live: Live, e: Event) {
    match e
    case Added(s) => Ref(s) !in live
    case Updated(o, n) => Ref(o) in live && live[Ref(o)] == o && Ref(n) == Ref(o)
    case Deleted(s) => Ref(s) in live && live[Ref(s)] == s
    case Claimed(_, _) => false
  }

  function LiveAfter(live: Live, e: Event): Live
    requires Reported(live, e)
  {
    match e
    case Added(s) => live[Ref(s) := s]
    case Updated(_, n) => live[Ref(n) := n]
    case Deleted(s) => live - {Ref(s)}
  }

  ghost predicate Matches(rel: Relation, live: Live) {
    forall k, t :: (k, t) in rel <==> k != "" && t in live && Key(live[t]) == k
  }

  /** The condition under which one event keeps the index and the live services together. */
  predicate InStep(e: Event) {
    match e
    case Added(s) => Managed(s) <==> Key(s) != ""
    case Updated(_, _) => true
    case Deleted(s) => Key(s) != "" ==> Managed(s)
    case Claimed(_, _) => false
  }

  /** An event keeps the agreement exactly when its service is managed just if it has a key. */
  lemma AgreementIff(rel: Relation, live: Live, e: Event)
    requires Matches(rel, live) && Reported(live, e)
    ensures Matches(Moved(rel, e), LiveAfter(live, e)) <==> InStep(e)
  {
    var r, l := Moved(rel, e), LiveAfter(live, e);
    match e
    case Added(s) => assert ((Key(s), Ref(s)) in r) == Managed(s); assert l[Ref(s)] == s;
    case Updated(o, n) => assert forall k, t :: t != Ref(o) ==> ((k, t) in rel <==> (k, t) in r);
    case Deleted(s) => assert Key(s) != "" ==> (((Key(s), Ref(s)) in r) == !Managed(s));
  }

  /** The live services after a history, if it is one an informer can report. */
  function History(es: seq<Event>): Option<Live> {
    if es == [] then Some(map[])
    else
      var before, e := History(es[..|es| - 1]), es[|es| - 1];
      if before.Some? && Reported(before.value, e) then Some(LiveAfter(before.value, e)) else None
  }

  lemma {:induction false} HistoryMatches(es: seq<Event>)
    requires History(es).Some? && forall e :: e in es ==> InStep(e)
    ensures Matches(RunRelation(es), History(es).value)
  {
    if es != [] {
      HistoryMatches(es[..|es| - 1]);
      AgreementIff(RunRelation(es[..|es| - 1]), History(es[..|es| - 1]).value, es[|es| - 1]);
    }
  }

  /** Index and live services agree now and did after every earlier event. */
  ghost predicate AlwaysMatches(es: seq<Event>)
    requires History(es).Some?
  {
    Matches(RunRelation(es), History(es).value) && (es != [] ==> AlwaysMatches(es[..|es| - 1]))
  }

  /** The agreement lasts through a whole history exactly when every event is in step. */
  lemma {:induction false} AlwaysMatchesIff(es: seq<Event>)
    requires History(es).Some?
    ensures AlwaysMatches(es) <==> forall e :: e in es ==> InStep(e)
  {
    if es != [] {
      var init, e := es[..|es| - 1], es[|es| - 1];
      assert es == init + [e];
      AlwaysMatchesIff(init);
      if AlwaysMatches(init) {
        AgreementIff(RunRelation(init), History(init).value, e);
      }
    }
  }

  /** Under each key the cache lists, once each, exactly the live services with that key. */
  lemma IndexAgreesWithServices(es: seq<Event>, k: string)
    requires AllPlain(es) && SoundRun(es)
    requires History(es).Some? && forall e :: e in es ==> InStep(e)
    requires k != ""
    ensures Distinct(Refs(RunCache(es), k))
    ensures var live := History(es).value;
            forall t :: t in Refs(RunCache(es), k) <==> t in live && Key(live[t]) == k
  {
    CacheStandsForRelation(es);
    HistoryMatches(es);
    assert Readable(RunCache(es), k);
    assert forall t :: t in Refs(RunCache(es), k) <==> (k, t) in RunRelation(es);
  }

  // ----- where a service is listed -----

  /** A host name under the gateway's suffix is listed without it, any other host name as it is. */
  lemma KeyOfHost(s: Service, x: string)
    ensures s.host == x + ".myservices.local" ==> Key(s) == x && (Managed(s) <==> s.loadBalancer)
    ensures !EndsWith(s.host, ".myservices.local") ==> Key(s) == s.host && !Managed(s)
  {
    if s.host == x + ".myservices.local" {
      assert s.host[|s.host| - |SERVICE_SUFFIX|..] == SERVICE_SUFFIX;
      assert s.host[..|s.host| - |SERVICE_SUFFIX|] == x;
    }
  }

  /** A load balancer added under such a host name is listed, by name space and name, under what precedes the suffix. */
  lemma AddedIsListed(c: Cache, rel: Relation, s: Service, x: string)
    requires Stands(c, rel) && Plain(Ref(s)) && AppendIsSound(c, x, Ref(s))
    requires s.loadBalancer && s.host == x + ".myservices.local"
    ensures s.ns + "/" + s.name in Refs(Handle(c, Added(s)), x)
    ensures forall k :: k != x ==> Refs(Handle(c, Added(s)), k) == Refs(c, k)
  {
    KeyOfHost(s, x);
    assert Readable(c, x);
    AppendRefs(c, x, Ref(s));
    forall k | k != x
      ensures Refs(Handle(c, Added(s)), k) == Refs(c, k)
    {
      OtherKey(c, Handle(c, Added(s)), k);
    }
  }

  /** A claim that clears the name returns it, and lists the user's own service in the default name space under it. */
  lemma ClaimIsListed(c: Cache, rel: Relation, user: string, fails: set<string>)
    requires Stands(c, rel) && !Refused(rel, user, fails)
    requires Plain(Primary(user)) && AppendIsSound(c, "dynamic-service-" + user, Primary(user))
    ensures var (d, name) := Claim(c, user, fails);
            && name == "dynamic-service-" + user
            && "default" + "/" + ("dynamic-service-" + user) in Refs(d, name)
  {
    var key := ClaimKey(user);
    ClaimOutcome(c, rel, user, fails);
    LookedUpStands(c, rel, key);
    var c1 := LoadOrEmpty(c, key);
    assert Readable(c1, key);
    AppendRefs(c1, key, Primary(user));
  }

  // ----- when the conditions fail -----

  /** Two references clash exactly when the names agree and one namespace ends with the other. */
  lemma ClashIff(ns: string, name: string, ns2: string, name2: string)
    requires Free(ns, '/') && Free(name, '/') && Free(ns2, '/') && Free(name2, '/')
    ensures EndsWith(ns + "/" + name, ns2 + "/" + name2) <==> name == name2 && EndsWith(ns, ns2)
  {
    var x, t := ns + "/" + name, ns2 + "/" + name2;
    assert t[|ns2|] == '/' && x[|ns|] == '/';
    assert x[|ns| + 1..] == name && t[|ns2| + 1..] == name2;
    if EndsWith(x, t) {
      var d := |x| - |t|;
      assert forall j :: 0 <= j < |t| ==> x[d + j] == x[d..][j] == t[j];
      assert x[d + |ns2|] == '/';
      assert forall j :: 0 <= j < |x| && x[j] == '/' ==> j == |ns|;
      assert x[d..][..|ns2|] == ns[d..] && t[..|ns2|] == ns2;
    }
    if name == name2 && EndsWith(ns, ns2) {
      assert x[|x| - |t|..] == ns[|ns| - |ns2|..] + "/" + name;
    }
  }

  /** An annotation that an update adds is indexed although the service is not managed, and stays after its deletion. */
  lemma UnmanagedIsLeftBehind()
    ensures var s := Service("ns", "x", "", true);
            var es := [Added(s), Updated(s, s.(host := "a")), Deleted(s.(host := "a"))];
            && History(es) == Some(map[]) && RunRelation(es) == {("a", "ns/x")}
            && Refs(RunCache(es), "a") == ["ns/x"]
  {
    var s := Service("ns", "x", "", true);
    var u := s.(host := "a");
    var e1, e2, e3 := Added(s), Updated(s, u), Deleted(u);
    assert [e1, e2, e3][..2] == [e1, e2] && [e1, e2][..1] == [e1] && [e1][..0] == [];
    assert Ref(s) == "ns/x" == Ref(u);
    assert Key(s) == "" && Key(u) == "a" && !Managed(s) && !Managed(u);
    assert RunRelation([e1]) == {} && History([e1]) == Some(map["ns/x" := s]);
    assert Reported(map["ns/x" := s], e2) && map["ns/x" := s]["ns/x" := u] == map["ns/x" := u];
    assert RunRelation([e1, e2]) == {("a", "ns/x")} && History([e1, e2]) == Some(map["ns/x" := u]);
    assert Reported(map["ns/x" := u], e3) && map["ns/x" := u] - {"ns/x"} == map[];
    assert RunCache([e1]) == map[] && RunCache([e1, e2, e3]) == RunCache([e1, e2]) == map["a" := "ns/x" + ";"];
    assert Render(["ns/x"]) == "ns/x" + ";" + "" by { assert ["ns/x"][1..] == []; }
    StoredRefs(RunCache([e1, e2, e3]), "a", ["ns/x"]);
  }

  /** A namesake in a namespace that ends with the other's: one is never listed, and removing it damages both. */
  lemma NamesakeIsLost(k: string)
    ensures var c: Cache := map[k := Render(["ba/x"])];
            && Refs(c, k) == ["ba/x"]
            && AppendEntry(c, k, "a/x" + ";") == c
            && RemoveEntry(c, k, "a/x" + ";") == map[k := "b"]
  {
    var x, t := "ba/x", "a/x";
    var c: Cache := map[k := Render([x])];
    StoredRefs(c, k, [x]);
    assert Render([x]) == x + ";" + "" by { assert [x][1..] == []; }
    assert x[1..] == t && EndsWith(x, t);
    ContainsToken(x, "", t);
    RemoveToken(x, "", t);
    assert RemoveAll("", t + ";") == "";
    assert RemoveAll(c[k], t + ";") == "b";
    assert "b"[0] in "b";
  }
}
