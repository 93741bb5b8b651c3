/** Choosing a Diffie-Hellman group from the moduli file in two passes. */
module GroupChoice {
  import opened Primitives

  datatype Group = Group(size: nat, g: nat, p: nat)

  /** A line of the file: None when it does not parse as a safe prime.  A parsed size is positive. */
  type Line = l: Option<Group> | l.Some? ==> l.value.size > 0 witness None

  predicate InRange(l: Line, min: int, max: int) {
    l.Some? && min <= l.value.size <= max
  }

  /** The groups whose size is in range, in file order. */
  function Candidates(lines: seq<Line>, min: int, max: int): (c: seq<Group>)
    ensures forall g :: g in c ==> g.size > 0
  {
    if lines == [] then []
    else
      var last := lines[|lines| - 1];
      Candidates(lines[..|lines| - 1], min, max) + (if InRange(last, min, max) then [last.value] else [])
  }

  function OfSize(c: seq<Group>, size: nat): seq<Group> {
    if c == [] then []
    else OfSize(c[..|c| - 1], size) + (if c[|c| - 1].size == size then [c[|c| - 1]] else [])
  }

  /** One entry's effect on the best size so far. */
  function Better(best: nat, size: nat, want: nat): nat {
    if (size > want && size < best) || (size > best && best < want) then size else best
  }

  function Best(c: seq<Group>, want: nat): nat {
    if c == [] then 0 else Better(Best(c[..|c| - 1], want), c[|c| - 1].size, want)
  }

  // ----- what the best size is -----

  predicate Occurs(c: seq<Group>, size: nat) {
    exists i :: 0 <= i < |c| && c[i].size == size
  }

  /** The wanted size, seen before any larger one. */
  predicate SeenFirst(c: seq<Group>, want: nat) {
    exists i :: 0 <= i < |c| && c[i].size == want && forall j :: 0 <= j < i ==> c[j].size <= want
  }

  predicate AllBelow(c: seq<Group>, want: nat) {
    forall i :: 0 <= i < |c| ==> c[i].size < want
  }

  /** Some candidate has the best size; it is the largest if none reaches the wanted size, and
      otherwise reaches it with nothing strictly in between. */
  lemma {:induction false} BestMeaning(c: seq<Group>, want: nat)
    requires want >= 1 && c != [] && forall g :: g in c ==> g.size > 0
    ensures Occurs(c, Best(c, want))
    ensures AllBelow(c, want) ==> forall i :: 0 <= i < |c| ==> c[i].size <= Best(c, want)
    ensures !AllBelow(c, want) ==> Best(c, want) >= want
    ensures !AllBelow(c, want) ==> forall i :: 0 <= i < |c| ==> !(want < c[i].size < Best(c, want))
  {
    var d, last := c[..|c| - 1], c[|c| - 1];
    assert c == d + [last] && last in c;
    if d != [] {
      assert forall g :: g in d ==> g in c;
      BestMeaning(d, want);
      var i :| 0 <= i < |d| && d[i].size == Best(d, want);
      assert c[i] == d[i];
      assert AllBelow(c, want) <==> AllBelow(d, want) && last.size < want;
    } else {
      assert Best(c, want) == last.size && c[0] == last;
    }
  }

  predicate NoneLarger(c: seq<Group>, want: nat) {
    forall j :: 0 <= j < |c| ==> c[j].size <= want
  }

  lemma SeenFirstStep(c: seq<Group>, g: Group, want: nat)
    ensures SeenFirst(c + [g], want) <==> SeenFirst(c, want) || (g.size == want && NoneLarger(c, want))
  {
    var d := c + [g];
    assert forall j :: 0 <= j < |c| ==> d[j] == c[j];
    if SeenFirst(c, want) {
      var i :| 0 <= i < |c| && c[i].size == want && forall j :: 0 <= j < i ==> c[j].size <= want;
      assert d[i].size == want && forall j :: 0 <= j < i ==> d[j].size <= want;
    } else if g.size == want && NoneLarger(c, want) {
      assert d[|c|].size == want;
    }
  }

  /** A group of the wanted size is found exactly when one stands before every larger candidate. */
  lemma {:induction false} ExactSizeIff(c: seq<Group>, want: nat)
    requires want >= 1 && forall g :: g in c ==> g.size > 0
    ensures Best(c, want) == want <==> SeenFirst(c, want)
  {
    if c != [] {
      var d, last := c[..|c| - 1], c[|c| - 1];
      assert c == d + [last] && last in c;
      assert forall g :: g in d ==> g in c;
      ExactSizeIff(d, want);
      SeenFirstStep(d, last, want);
      NoneAbove(d, want);
    }
  }

  /** The best size is above the wanted one only if some candidate is, and below it only if none is. */
  lemma {:induction false} NoneAbove(c: seq<Group>, want: nat)
    ensures Best(c, want) < want ==> forall j :: 0 <= j < |c| ==> c[j].size < want
    ensures Best(c, want) > want ==> exists j :: 0 <= j < |c| && c[j].size > want
  {
    if c != [] {
      var d, last := c[..|c| - 1], c[|c| - 1];
      assert c == d + [last];
      NoneAbove(d, want);
      if Best(d, want) > want {
        var j :| 0 <= j < |d| && d[j].size > want;
        assert c[j] == d[j];
      } else if last.size > want {
        assert c[|d|].size > want;
      }
    }
  }

  /** A larger group listed first hides one of exactly the wanted size. */
  lemma LargerGroupHidesExact(g: nat, p: nat, q: nat)
    ensures var lines: seq<Line> := [Some(Group(4096, g, p)), Some(Group(2048, g, q))];
            Best(Candidates(lines, 1024, 8192), 2048) == 4096
  {
    var a, b := Group(4096, g, p), Group(2048, g, q);
    var lines: seq<Line> := [Some(a), Some(b)];
    CandidatesStep(lines, 0, 1024, 8192);
    CandidatesStep(lines, 1, 1024, 8192);
    assert lines[..2] == lines && lines[..0] == [];
    assert [] + [a] == [a];
    Steps([], a, 2048, 0);
    Steps([a], b, 2048, 0);
  }

  // ----- counting -----

  lemma CandidatesStep(lines: seq<Line>, i: nat, min: int, max: int)
    requires i < |lines|
    ensures Candidates(lines[..i + 1], min, max)
            == if InRange(lines[i], min, max) then Candidates(lines[..i], min, max) + [lines[i].value]
               else Candidates(lines[..i], min, max)
  {
    var c := Candidates(lines[..i], min, max);
    assert c + [] == c;
    assert lines[..i + 1][..i] == lines[..i];
  }

  lemma Steps(c: seq<Group>, g: Group, want: nat, size: nat)
    ensures Best(c + [g], want) == Better(Best(c, want), g.size, want)
    ensures OfSize(c + [g], size) == if g.size == size then OfSize(c, size) + [g] else OfSize(c, size)
  {
    assert OfSize(c, size) + [] == OfSize(c, size);
    assert (c + [g])[..|c|] == c;
  }

  lemma {:induction false} OfSizeLength(c: seq<Group>, size: nat)
    ensures OfSize(c, size) != [] <==> Occurs(c, size)
  {
    if c != [] {
      var d, last := c[..|c| - 1], c[|c| - 1];
      OfSizeLength(d, size);
      if Occurs(d, size) {
        var i :| 0 <= i < |d| && d[i].size == size;
        assert c[i].size == size;
      }
      assert last.size == size ==> c[|c| - 1].size == size;
    }
  }

  /** A new best size has not occurred before, so counting can start over. */
  lemma NewBestIsNew(c: seq<Group>, want: nat, size: nat)
    requires want >= 1 && size > 0 && forall g :: g in c ==> g.size > 0
    requires Better(Best(c, want), size, want) != Best(c, want)
    ensures !Occurs(c, size)
  {
    if c != [] {
      BestMeaning(c, want);
      NoneAbove(c, want);
    }
  }

  /** Pass one: the best size, and how often it occurs in the whole file. */
  method FirstPass(lines: seq<Line>, min: int, want: nat, max: int) returns (best: nat, count: nat)
    requires want >= 1
    ensures var c := Candidates(lines, min, max);
            && best == Best(c, want)
            && count == |OfSize(c, best)|
            && (count == 0 <==> c == [])
  {
    best, count := 0, 0;
    for i := 0 to |lines|
      invariant best == Best(Candidates(lines[..i], min, max), want)
      invariant count == |OfSize(Candidates(lines[..i], min, max), best)|
    {
      ghost var c := Candidates(lines[..i], min, max);
      CandidatesStep(lines, i, min, max);
      if !InRange(lines[i], min, max) { continue; }
      var dhg := lines[i].value;
      if (dhg.size > want && dhg.size < best) || (dhg.size > best && best < want) {
        NewBestIsNew(c, want, dhg.size);
        OfSizeLength(c, dhg.size);
        best := dhg.size;
        count := 0;
      }
      Steps(c, dhg, want, best);
      if dhg.size == best {
        count := count + 1;
      }
    }
    assert lines[..|lines|] == lines;
    ghost var c := Candidates(lines, min, max);
    if c != [] {
      BestMeaning(c, want);
      OfSizeLength(c, best);
    }
  }

  /** Pass two: the drawn group, counted again from the start of the file. */
  method SecondPass(lines: seq<Line>, min: int, max: int, best: nat, which: nat) returns (r: Option<Group>)
    ensures var same := OfSize(Candidates(lines, min, max), best);
            r == if which < |same| then Some(same[which]) else None
  {
    var count, i := 0, 0;
    r := None;
    ghost var all := OfSize(Candidates(lines, min, max), best);
    while i < |lines|
      invariant 0 <= i <= |lines|
      invariant count == |OfSize(Candidates(lines[..i], min, max), best)| <= which
    {
      ghost var c := Candidates(lines[..i], min, max);
      CandidatesStep(lines, i, min, max);
      var l := lines[i];
      i := i + 1;
      if l.None? || l.value.size > max || l.value.size < min { continue; }
      Steps(c, l.value, 0, best);
      if l.value.size != best { continue; }
      count := count + 1;
      if count - 1 != which { continue; }
      SamePrefix(lines, i, min, max, best);
      assert OfSize(c + [l.value], best)[which] == l.value;
      return Some(l.value);
    }
    assert lines[..|lines|] == lines;
  }

  lemma {:induction false} SamePrefix(lines: seq<Line>, i: nat, min: int, max: int, size: nat)
    requires i <= |lines|
    ensures OfSize(Candidates(lines[..i], min, max), size) <= OfSize(Candidates(lines, min, max), size)
    decreases |lines|
  {
    if i == |lines| {
      assert lines[..i] == lines;
    } else {
      var init := lines[..|lines| - 1];
      assert init[..i] == lines[..i];
      SamePrefix(init, i, min, max, size);
      var c, d := Candidates(init, min, max), Candidates(lines, min, max);
      if d != c {
        assert d[..|d| - 1] == c;
      }
    }
  }

  /** The chosen group, or None for the fixed fallback.  `draw(n)` is a number below `n`; the file
      is read twice and may have changed in between. */
  method ChooseDh(first: seq<Line>, second: seq<Line>, min: int, want: nat, max: int, draw: nat -> nat)
    returns (r: Option<Group>)
    requires want >= 1 && forall n :: n > 0 ==> draw(n) < n
    ensures var c := Candidates(first, min, max);
            && (c == [] ==> r == None)
            && (c != [] && first == second ==>
                  var same := OfSize(c, Best(c, want));
                  same != [] && r == Some(same[draw(|same|)]))
    ensures r.Some? ==> Some(r.value) in second && min <= r.value.size <= max
                        && r.value.size == Best(Candidates(first, min, max), want)
  {
    var best, count := FirstPass(first, min, want, max);
    if count == 0 {
      return None;
    }
    var which := draw(count);
    r := SecondPass(second, min, max, best, which);
    if r.Some? {
      ghost var same := OfSize(Candidates(second, min, max), best);
      assert same[which] in same;
      Chosen(second, min, max, best, r.value);
    }
  }

  lemma {:induction false} OfSizeMembers(c: seq<Group>, size: nat, g: Group)
    requires g in OfSize(c, size)
    ensures g in c && g.size == size
  {
    if c != [] && g in OfSize(c[..|c| - 1], size) {
      OfSizeMembers(c[..|c| - 1], size, g);
    }
  }

  lemma {:induction false} CandidateMembers(lines: seq<Line>, min: int, max: int, g: Group)
    requires g in Candidates(lines, min, max)
    ensures Some(g) in lines && min <= g.size <= max
  {
    if lines != [] && g in Candidates(lines[..|lines| - 1], min, max) {
      CandidateMembers(lines[..|lines| - 1], min, max, g);
    }
  }

  /** A group is a candidate exactly if a line of the file holds it and its size is in range. */
  lemma {:induction false} CandidateIff(lines: seq<Line>, min: int, max: int, g: Group)
    ensures g in Candidates(lines, min, max) <==> Some(g) in lines && min <= g.size <= max
  {
    if lines != [] {
      var init, last := lines[..|lines| - 1], lines[|lines| - 1];
      assert lines == init + [last];
      CandidateIff(init, min, max, g);
    }
  }

  lemma Chosen(lines: seq<Line>, min: int, max: int, size: nat, g: Group)
    requires g in OfSize(Candidates(lines, min, max), size)
    ensures Some(g) in lines && min <= g.size <= max && g.size == size
  {
    OfSizeMembers(Candidates(lines, min, max), size, g);
    CandidateMembers(lines, min, max, g);
  }
}
