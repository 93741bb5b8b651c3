/**
 References kept in one string: every reference is a token followed by ';'.  What substring
 search and substring replacement do to such a string, in terms of its tokens.
 */
module ServiceText {
  import opened Primitives
  import opened Texts

  predicate EndsWith(s: string, t: string) {
    |t| <= |s| && s[|s| - |t|..] == t
  }

  /** strings.Contains */
  predicate Contains(s: string, v: string) {
    HasPrefix(s, v) || (s != "" && Contains(s[1..], v))
  }

  /** strings.ReplaceAll(s, v, ""): occurrences are taken from the left and do not overlap. */
  function RemoveAll(s: string, v: string): string
    requires v != ""
    decreases |s|
  {
    if HasPrefix(s, v) then RemoveAll(s[|v|..], v)
    else if s == "" then ""
    else [s[0]] + RemoveAll(s[1..], v)
  }

  function TrimSuffix(s: string, v: string): string {
    if EndsWith(s, v) then s[..|s| - |v|] else s
  }

  // ----- tokens -----

  predicate Tokens(ts: seq<string>) {
    forall t :: t in ts ==> Free(t, ';')
  }

  function Render(ts: seq<string>): string {
    if ts == [] then "" else ts[0] + ";" + Render(ts[1..])
  }

  lemma {:induction false} RenderAppend(ts: seq<string>, t: string)
    ensures Render(ts + [t]) == Render(ts) + t + ";"
  {
    if ts == [] {
      assert [t][1..] == [];
    } else {
      assert (ts + [t])[1..] == ts[1..] + [t];
      RenderAppend(ts[1..], t);
    }
  }

  function Without(ts: seq<string>, t: string): seq<string> {
    if ts == [] then []
    else if ts[0] == t then Without(ts[1..], t)
    else [ts[0]] + Without(ts[1..], t)
  }

  lemma {:induction false} WithoutMembers(ts: seq<string>, t: string)
    ensures forall x :: x in Without(ts, t) <==> x in ts && x != t
  {
    if ts != [] {
      WithoutMembers(ts[1..], t);
      assert ts == [ts[0]] + ts[1..];
    }
  }

  function WithToken(ts: seq<string>, t: string): seq<string> {
    if t in ts then ts else ts + [t]
  }

  /** strings.Split(s, ";") */
  function Pieces(s: string): (ts: seq<string>)
    ensures ts != []
  {
    SplitBy(s, ';')
  }

  lemma {:induction false} FindFirst(s: string, c: char, i: nat)
    requires i < |s| && s[i] == c
    requires forall j :: 0 <= j < i ==> s[j] != c
    ensures Find(s, c) == i
  {
    if i > 0 {
      FindFirst(s[1..], c, i - 1);
    }
  }

  lemma SplitOne(x: string)
    requires Free(x, ';')
    ensures Pieces(x) == [x]
  {
    assert forall j :: 0 <= j < |x| ==> x[j] in x;
  }

  lemma SplitCons(x: string, r: string)
    requires Free(x, ';')
    ensures Pieces(x + ";" + r) == [x] + Pieces(r)
  {
    var s := x + ";" + r;
    assert forall j :: 0 <= j < |x| ==> s[j] == x[j] && x[j] in x;
    assert s[|x|] == ';';
    FindFirst(s, ';', |x|);
    assert s[..|x|] == x && s[|x| + 1..] == r;
  }

  lemma TrimCons(x: string, r: string)
    ensures TrimSuffix(x + ";", ";") == x
    ensures EndsWith(r, ";") ==> TrimSuffix(x + ";" + r, ";") == x + ";" + TrimSuffix(r, ";")
  {
    if EndsWith(r, ";") {
      var s := x + ";" + r;
      assert s[|s| - 1..] == r[|r| - 1..];
    }
  }

  /** Splitting the string without its last ';' gives the tokens back; no tokens give one empty entry. */
  lemma {:induction false} SplitRender(ts: seq<string>)
    requires Tokens(ts)
    ensures Pieces(TrimSuffix(Render(ts), ";")) == if ts == [] then [""] else ts
  {
    if ts != [] {
      var x, r := ts[0], Render(ts[1..]);
      SplitRender(ts[1..]);
      TrimCons(x, r);
      if |ts| == 1 {
        SplitOne(x);
        assert Render(ts) == x + ";" && ts == [x];
      } else {
        RenderEnds(ts[1..]);
        SplitCons(x, TrimSuffix(r, ";"));
        assert ts == [x] + ts[1..];
      }
    }
  }

  lemma {:induction false} RenderEnds(ts: seq<string>)
    requires ts != []
    ensures EndsWith(Render(ts), ";")
  {
    if |ts| > 1 {
      RenderEnds(ts[1..]);
    }
  }

  // ----- searching and replacing a reference -----

  lemma PrefixIsToken(x: string, r: string, t: string)
    requires Free(x, ';') && Free(t, ';')
    ensures HasPrefix(x + ";" + r, t + ";") <==> x == t
  {
    var s, v := x + ";" + r, t + ";";
    assert s[|x|] == ';' && v[|t|] == ';';
    assert |t| < |x| ==> s[|t|] == x[|t|];
    assert |x| < |t| ==> v[|x|] == t[|x|];
    assert s[..|x|] == x && v[..|t|] == t;
    if HasPrefix(s, v) {
      assert forall i :: 0 <= i < |v| ==> s[i] == s[..|v|][i] == v[i];
    }
  }

  lemma Shorter(x: string, t: string)
    requires x != ""
    ensures EndsWith(x, t) <==> x == t || EndsWith(x[1..], t)
    ensures EndsWith(x[1..], t) ==> x[..|x| - |t|] == [x[0]] + x[1..][..|x| - 1 - |t|]
  {
    if |t| < |x| {
      assert x[1..][|x| - 1 - |t|..] == x[|x| - |t|..];
    }
  }

  /** A reference is found in a rendered string exactly where a token ends with it. */
  lemma {:induction false} ContainsToken(x: string, r: string, t: string)
    requires Free(x, ';') && Free(t, ';')
    ensures Contains(x + ";" + r, t + ";") <==> EndsWith(x, t) || Contains(r, t + ";")
  {
    PrefixIsToken(x, r, t);
    if x == "" {
      assert (x + ";" + r)[1..] == r;
    } else {
      assert (x + ";" + r)[1..] == x[1..] + ";" + r;
      ContainsToken(x[1..], r, t);
      Shorter(x, t);
    }
  }

  lemma RemoveSkips(s: string, v: string)
    requires v != "" && s != "" && !HasPrefix(s, v)
    ensures RemoveAll(s, v) == [s[0]] + RemoveAll(s[1..], v)
  {
  }

  lemma RemoveTakes(v: string, r: string)
    requires v != ""
    ensures RemoveAll(v + r, v) == RemoveAll(r, v)
  {
    assert (v + r)[..|v|] == v && (v + r)[|v|..] == r;
  }

  /** What is left of a token: all of it with its separator, or what stands before the reference. */
  function Rest(x: string, t: string): string {
    if EndsWith(x, t) then x[..|x| - |t|] else x + ";"
  }

  lemma RestStep(x: string, t: string)
    requires x != "" && x != t
    ensures Rest(x, t) == [x[0]] + Rest(x[1..], t)
  {
    Shorter(x, t);
    assert x + ";" == [x[0]] + (x[1..] + ";");
  }

  lemma {:induction false} RemoveToken(x: string, r: string, t: string)
    requires Free(x, ';') && Free(t, ';')
    ensures RemoveAll(x + ";" + r, t + ";") == Rest(x, t) + RemoveAll(r, t + ";")
  {
    PrefixIsToken(x, r, t);
    var v := t + ";";
    if x == t {
      RemoveTakes(v, r);
      assert Rest(x, t) == "";
    } else if x == "" {
      RemoveSkips(x + ";" + r, v);
      assert (x + ";" + r)[1..] == r;
    } else {
      var y, tail := x[1..], x[1..] + ";" + r;
      RemoveSkips(x + ";" + r, v);
      assert (x + ";" + r)[1..] == tail;
      RemoveToken(y, r, t);
      RestStep(x, t);
      Regroup([x[0]], Rest(y, t), RemoveAll(r, v));
    }
  }

  /** Searching is token membership up to tokens that end with the reference. */
  lemma {:induction false} ContainsRender(ts: seq<string>, t: string)
    requires Tokens(ts) && Free(t, ';')
    ensures Contains(Render(ts), t + ";") <==> exists x :: x in ts && EndsWith(x, t)
  {
    if ts != [] {
      ContainsToken(ts[0], Render(ts[1..]), t);
      ContainsRender(ts[1..], t);
      assert ts == [ts[0]] + ts[1..];
    }
  }

  /** Some other token ends with the reference `t`. */
  predicate Clashes(ts: seq<string>, t: string) {
    exists x :: x in ts && x != t && EndsWith(x, t)
  }

  /** Replacing a reference removes its token, exactly when no other token ends with it. */
  lemma RemoveIsExact(ts: seq<string>, t: string)
    requires Tokens(ts) && Free(t, ';')
    ensures RemoveAll(Render(ts), t + ";") == Render(Without(ts, t)) <==> !Clashes(ts, t)
  {
    RemoveCases(ts, t);
  }

  lemma {:induction false} RemoveCases(ts: seq<string>, t: string)
    requires Tokens(ts) && Free(t, ';')
    ensures !Clashes(ts, t) ==> RemoveAll(Render(ts), t + ";") == Render(Without(ts, t))
    ensures |RemoveAll(Render(ts), t + ";")| <= |Render(Without(ts, t))|
    ensures Clashes(ts, t) ==> |RemoveAll(Render(ts), t + ";")| < |Render(Without(ts, t))|
  {
    if ts != [] {
      var x := ts[0];
      assert ts == [x] + ts[1..];
      RemoveToken(x, Render(ts[1..]), t);
      RemoveCases(ts[1..], t);
      assert x != t ==> Without(ts, t)[1..] == Without(ts[1..], t);
      assert Clashes(ts, t) <==> (x != t && EndsWith(x, t)) || Clashes(ts[1..], t);
    }
  }

  function AppendText(s: string, v: string): string {
    if Contains(s, v) then s else s + v
  }

  /** Appending adds the token if it is new, exactly when it is there already or nothing ends with it. */
  lemma AppendIsExact(ts: seq<string>, t: string)
    requires Tokens(ts) && Free(t, ';')
    ensures AppendText(Render(ts), t + ";") == Render(WithToken(ts, t)) <==> t in ts || !Clashes(ts, t)
  {
    ContainsRender(ts, t);
    RenderAppend(ts, t);
    assert Render(ts) + (t + ";") == Render(ts) + t + ";";
    assert t in ts ==> EndsWith(t, t);
  }
}
