/** The cache object, its informer handlers, and the claim that filters its entries in place. */
module ServiceCache {
  import opened ServiceText
  import opened ServiceIndex

  class Index {
    var cache: Cache

    constructor ()
      ensures cache == RunCache([])
    {
      cache := map[];
    }

    method Append(key: string, val: string)
      modifies this
      ensures cache == AppendEntry(old(cache), key, val)
    {
      if key !in cache {
        cache := cache[key := val];
      } else if !Contains(cache[key], val) {
        cache := cache[key := cache[key] + val];
      } else {
        assert cache[key := cache[key]] == cache;
      }
    }

    method Remove(key: string, val: string)
      requires val != ""
      modifies this
      ensures cache == RemoveEntry(old(cache), key, val)
    {
      if key in cache {
        var newVal := RemoveAll(cache[key], val);
        if Blank(newVal) {
          cache := cache - {key};
        } else {
          cache := cache[key := newVal];
        }
      }
    }

    method OnAdd(s: Service)
      modifies this
      ensures cache == Handle(old(cache), Added(s))
    {
      if !Managed(s) {
        return;
      }
      Append(Key(s), Ref(s) + ";");
    }

    method OnUpdate(before: Service, now: Service)
      modifies this
      ensures cache == Handle(old(cache), Updated(before, now))
    {
      if Key(before) != "" && Key(before) != Key(now) {
        Remove(Key(before), Ref(before) + ";");
      }
      if Key(now) != "" {
        Append(Key(now), Ref(now) + ";");
      }
    }

    method OnDelete(s: Service)
      modifies this
      ensures cache == Handle(old(cache), Deleted(s))
    {
      if !Managed(s) {
        return;
      }
      Remove(Key(s), Ref(s) + ";");
    }

    /** handleNSService: the name to use, or the empty string when another service holds it. */
    method HandleNSService(user: string, fails: set<string>) returns (name: string)
      modifies this
      ensures (cache, name) == Claim(old(cache), user, fails)
    {
      var key := ClaimKey(user);
      if key !in cache {
        cache := cache[key := ""];
      }
      var pieces := Pieces(TrimSuffix(cache[key], ";"));
      var entries := new string[|pieces|](i requires 0 <= i < |pieces| => pieces[i]);
      assert entries[..] == pieces;
      var primary := Primary(user);
      var n := KeepInPlace(entries, primary, fails);
      name := "";
      if n == 0 {
        Append(key, primary + ";");
        name := key;
      }
      PrimaryNeverKept(pieces, primary, fails);
      assert n > 0 ==> entries[0] in entries[..n];
      if n == 1 && entries[0] == primary {
        name := key;
      }
    }
  }

  lemma {:induction false} KeptAppend(es: seq<string>, e: string, primary: string, fails: set<string>)
    ensures Kept(es + [e], primary, fails)
            == Kept(es, primary, fails) + (if Stays(e, primary, fails) then [e] else [])
  {
    if es != [] {
      assert (es + [e])[1..] == es[1..] + [e];
      KeptAppend(es[1..], e, primary, fails);
    }
  }

  /** The kept entries move to the front of the array they are read from. */
  method KeepInPlace(entries: array<string>, primary: string, fails: set<string>) returns (n: nat)
    modifies entries
    ensures n <= entries.Length
    ensures entries[..n] == Kept(old(entries[..]), primary, fails)
  {
    n := 0;
    for i := 0 to entries.Length
      invariant n <= i
      invariant entries[..n] == Kept(old(entries[..i]), primary, fails)
      invariant entries[i..] == old(entries[i..])
    {
      var e := entries[i];
      assert old(entries[..i + 1]) == old(entries[..i]) + [e] by {
        assert e == entries[i..][0] == old(entries[i..])[0];
      }
      KeptAppend(old(entries[..i]), e, primary, fails);
      if e != "" && e != primary && '/' in e {
        var refused := e in fails;
        if refused {
          ghost var front := entries[..n];
          entries[n] := e;
          assert entries[..n + 1] == front + [e];
          n := n + 1;
        }
      }
      assert entries[i + 1..] == old(entries[i..])[1..];
    }
    assert old(entries[..entries.Length]) == old(entries[..]);
  }
}
