/** Wildcard matching of names: the greedy algorithm, and what a pattern means. */
module Globs {
  import opened Options

  function Stars(p: string): nat {
    if p == [] then 0 else (if p[0] == '*' then 1 else 0) + Stars(p[1..])
  }

  /** The pattern with its wildcards replaced, one string each, from left to right. */
  function Fill(p: string, ss: seq<string>): string
    requires |ss| == Stars(p)
  {
    if p == [] then []
    else if p[0] == '*' then ss[0] + Fill(p[1..], ss[1..])
    else [p[0]] + Fill(p[1..], ss)
  }

  /** A pattern matches a name when its wildcards can be replaced to give the name. */
  ghost predicate Matches(p: string, n: string) {
    exists ss: seq<string> :: |ss| == Stars(p) && Fill(p, ss) == n
  }

  // ---- the same, a character at a time

  ghost predicate Steps(p: string, n: string)
    decreases |p|
  {
    if p == [] then n == []
    else if p[0] == '*' then exists k :: 0 <= k <= |n| && Steps(p[1..], n[k..])
    else n != [] && n[0] == p[0] && Steps(p[1..], n[1..])
  }

  lemma {:induction false} StepsIsMatches(p: string, n: string)
    ensures Steps(p, n) <==> Matches(p, n)
    decreases |p|
  {
    if Matches(p, n) {
      var ss: seq<string> :| |ss| == Stars(p) && Fill(p, ss) == n;
      FillSteps(p, ss);
    }
    if Steps(p, n) {
      var ss := StepsFill(p, n);
    }
  }

  lemma {:induction false} FillSteps(p: string, ss: seq<string>)
    requires |ss| == Stars(p)
    ensures Steps(p, Fill(p, ss))
    decreases |p|
  {
    if p != [] {
      if p[0] == '*' {
        FillSteps(p[1..], ss[1..]);
        assert Fill(p, ss)[|ss[0]|..] == Fill(p[1..], ss[1..]);
      } else {
        FillSteps(p[1..], ss);
        assert Fill(p, ss)[1..] == Fill(p[1..], ss);
      }
    }
  }

  lemma {:induction false} StepsFill(p: string, n: string) returns (ss: seq<string>)
    requires Steps(p, n)
    ensures |ss| == Stars(p) && Fill(p, ss) == n
    decreases |p|
  {
    if p == [] {
      ss := [];
    } else if p[0] == '*' {
      var k :| 0 <= k <= |n| && Steps(p[1..], n[k..]);
      var rest := StepsFill(p[1..], n[k..]);
      ss := [n[..k]] + rest;
      assert ss[1..] == rest;
    } else {
      ss := StepsFill(p[1..], n[1..]);
    }
  }

  // ---- segments

  /** The pieces of a pattern between its wildcards. */
  function Segments(p: string): (r: seq<string>)
    ensures |r| > 0
  {
    if p == [] then [[]]
    else
      var rest := Segments(p[1..]);
      if p[0] == '*' then [[]] + rest else [[p[0]] + rest[0]] + rest[1..]
  }

  lemma {:induction false} SegmentsSplit(a: string, b: string)
    requires '*' !in a
    ensures Segments(a + ['*'] + b) == [a] + Segments(b)
  {
    if a == [] {
      assert ([] + ['*'] + b)[1..] == b;
    } else {
      SegmentsSplit(a[1..], b);
      assert (a + ['*'] + b)[1..] == a[1..] + ['*'] + b;
      assert [a[0]] + a[1..] == a;
    }
  }

  lemma {:induction false} SegmentsPlain(a: string)
    requires '*' !in a
    ensures Segments(a) == [a]
  {
    if a != [] {
      SegmentsPlain(a[1..]);
      assert [a[0]] + a[1..] == a;
    }
  }

  lemma {:induction false} SegmentCount(p: string)
    ensures |Segments(p)| > 1 <==> '*' in p
    ensures p != [] && p[0] == '*' <==> |Segments(p)| > 1 && Segments(p)[0] == []
    ensures p != [] && p[|p| - 1] == '*' <==> |Segments(p)| > 1 && Segments(p)[|Segments(p)| - 1] == []
    decreases |p|
  {
    if p != [] {
      SegmentCount(p[1..]);
      assert p == [p[0]] + p[1..];
    }
  }

  lemma SplitAt(pat: string, start: nat, i: nat)
    requires start <= i < |pat| && '*' !in pat[start..i] && pat[i] == '*'
    ensures Segments(pat[start..]) == [pat[start..i]] + Segments(pat[i + 1..])
  {
    hide Segments;
    SegmentsSplit(pat[start..i], pat[i + 1..]);
    assert pat[start..] == pat[start..i] + ['*'] + pat[i + 1..];
  }

  method Split(pat: string) returns (segs: seq<string>)
    ensures segs == Segments(pat)
  {
    hide Segments;
    segs := [];
    var start := 0;
    assert pat[0..] == pat;
    for i := 0 to |pat|
      invariant 0 <= start <= i && '*' !in pat[start..i]
      invariant Segments(pat) == segs + Segments(pat[start..])
    {
      if pat[i] == '*' {
        SplitAt(pat, start, i);
        segs := segs + [pat[start..i]];
        start := i + 1;
      }
    }
    SegmentsPlain(pat[start..]);
    segs := segs + [pat[start..]];
  }

  // ---- matching segments after a wildcard

  ghost predicate Here(seg: string, name: string, k: nat) {
    k + |seg| <= |name| && name[k..k + |seg|] == seg
  }

  /** The segments fit into the name from `pos` on, in order and apart, the last one at its end. */
  ghost predicate Tail(segs: seq<string>, name: string, pos: nat)
    requires segs != []
    decreases |segs|
  {
    if |segs| == 1 then |segs[0]| <= |name| && pos <= |name| - |segs[0]| && name[|name| - |segs[0]|..] == segs[0]
    else exists k: nat :: pos <= k && Here(segs[0], name, k) && Tail(segs[1..], name, k + |segs[0]|)
  }

  lemma TailEarlier(segs: seq<string>, name: string, pos: nat, pos': nat)
    requires segs != [] && pos <= pos' && Tail(segs, name, pos')
    ensures Tail(segs, name, pos)
  {
  }

  /** Taking the leftmost occurrence loses nothing. */
  lemma Greedy(segs: seq<string>, name: string, pos: nat, k: nat)
    requires |segs| > 1 && pos <= k && Here(segs[0], name, k)
    requires forall j: nat :: pos <= j < k ==> !Here(segs[0], name, j)
    ensures Tail(segs, name, pos) <==> Tail(segs[1..], name, k + |segs[0]|)
  {
    if Tail(segs, name, pos) {
      var j: nat :| pos <= j && Here(segs[0], name, j) && Tail(segs[1..], name, j + |segs[0]|);
      TailEarlier(segs[1..], name, k + |segs[0]|, j + |segs[0]|);
    }
  }

  lemma {:induction false} PlainSteps(a: string, b: string, n: string)
    requires '*' !in a
    ensures Steps(a + b, n) <==> Here(a, n, 0) && Steps(b, n[|a|..])
    decreases |a|
  {
    if a == [] {
      assert a + b == b && n[0..] == n;
    } else {
      assert (a + b)[1..] == a[1..] + b;
      if n != [] {
        PlainSteps(a[1..], b, n[1..]);
        if |a| <= |n| {
          assert n[1..][|a[1..]|..] == n[|a|..];
          assert n[1..][..|a| - 1] == n[1..|a|];
          assert a == [a[0]] + a[1..];
          assert n[..|a|] == [n[0]] + n[1..|a|];
        }
      }
    }
  }

  lemma FirstStar(p: string) returns (i: nat)
    requires '*' in p
    ensures i < |p| && p[i] == '*' && '*' !in p[..i]
    decreases |p|
  {
    if p[0] == '*' {
      i := 0;
    } else {
      i := FirstStar(p[1..]);
      i := i + 1;
      assert p[..i] == [p[0]] + p[1..][..i - 1];
    }
  }

  /** After a wildcard, the rest of the pattern matches the rest of the name when its segments fit. */
  lemma {:induction false} TailIsSteps(p: string, name: string, pos: nat)
    requires pos <= |name|
    ensures Tail(Segments(p), name, pos) <==> exists k :: pos <= k <= |name| && Steps(p, name[k..])
    decreases |p|
  {
    if '*' in p {
      var i := FirstStar(p);
      var a, b := p[..i], p[i + 1..];
      assert p == a + ['*'] + b;
      SegmentsSplit(a, b);
      var segs := Segments(p);
      assert segs[1..] == Segments(b);
      forall k: nat | k <= |name| ensures Steps(p, name[k..]) <==> Here(a, name, k) && Tail(segs[1..], name, k + |a|) {
        StarSteps(a, b, name, k);
        if k + |a| <= |name| {
          TailIsSteps(b, name, k + |a|);
        }
      }
    } else {
      SegmentsPlain(p);
      forall k: nat | k <= |name| ensures Steps(p, name[k..]) <==> name[k..] == p {
        PlainSteps(p, [], name[k..]);
        assert p + [] == p;
      }
      if Tail(Segments(p), name, pos) {
        assert Steps(p, name[|name| - |p|..]);
      }
    }
  }

  lemma StarFirst(b: string, name: string, at: nat)
    requires at <= |name|
    ensures Steps(['*'] + b, name[at..]) <==> exists j :: at <= j <= |name| && Steps(b, name[j..])
  {
    var m := name[at..];
    assert (['*'] + b)[1..] == b;
    if Steps(['*'] + b, m) {
      var k :| 0 <= k <= |m| && Steps(b, m[k..]);
      assert m[k..] == name[at + k..];
    }
    if j :| at <= j <= |name| && Steps(b, name[j..]) {
      assert m[j - at..] == name[j..];
    }
  }

  lemma StarSteps(a: string, b: string, name: string, k: nat)
    requires '*' !in a && k <= |name|
    ensures Steps(a + ['*'] + b, name[k..]) <==>
            Here(a, name, k) && exists j :: k + |a| <= j <= |name| && Steps(b, name[j..])
  {
    hide Steps;
    assert a + ['*'] + b == a + (['*'] + b);
    PlainSteps(a, ['*'] + b, name[k..]);
    if k + |a| <= |name| {
      assert name[k..][..|a|] == name[k..k + |a|];
      assert name[k..][|a|..] == name[k + |a|..];
      StarFirst(b, name, k + |a|);
    }
  }

  /** The whole pattern: the first segment stands at the start, the others follow. */
  lemma WholeIsTail(p: string, name: string)
    requires '*' in p
    ensures var segs := Segments(p);
            |segs| > 1 && (Matches(p, name) <==> Here(segs[0], name, 0) && Tail(segs[1..], name, |segs[0]|))
  {
    StepsIsMatches(p, name);
    var i := FirstStar(p);
    var a, b := p[..i], p[i + 1..];
    assert p == a + ['*'] + b;
    SegmentsSplit(a, b);
    assert Segments(p)[1..] == Segments(b);
    StarSteps(a, b, name, 0);
    assert name[0..] == name;
    if |a| <= |name| {
      TailIsSteps(b, name, |a|);
    }
  }

  lemma {:induction false} PlainMatches(p: string, n: string)
    requires '*' !in p
    ensures Matches(p, n) <==> p == n
  {
    StepsIsMatches(p, n);
    PlainSteps(p, [], n);
    assert p + [] == p;
  }

  /** The leftmost occurrence at or after a position. */
  method Find(name: string, seg: string, pos: nat) returns (r: Option<nat>)
    ensures r.Some? ==> pos <= r.value && Here(seg, name, r.value) && forall j: nat :: pos <= j < r.value ==>
            !Here(seg, name, j)
    ensures r.None? ==> forall j: nat :: pos <= j ==> !Here(seg, name, j)
  {
    var k := pos;
    while k + |seg| <= |name|
      invariant pos <= k && forall j: nat :: pos <= j < k ==> !Here(seg, name, j)
    {
      if name[k..k + |seg|] == seg {
        return Some(k);
      }
      k := k + 1;
    }
    return None;
  }

  /** The greedy matcher is exact, for every pattern and every name. */
  method GlobMatch(pat: string, name: string) returns (r: bool)
    ensures r <==> Matches(pat, name)
  {
    hide Matches, Tail, Segments;
    if '*' !in pat {
      PlainMatches(pat, name);
      return pat == name;
    }
    var segs := Split(pat);
    SegmentCount(pat);
    WholeIsTail(pat, name);
    var startsStar, endsStar := pat[0] == '*', pat[|pat| - 1] == '*';
    var pos := 0;
    var i := 0;
    while i < |segs|
      invariant 0 <= i <= |segs| && 0 <= pos <= |name|
      invariant i == 0 ==> pos == 0
      invariant 0 < i < |segs| ==> (Matches(pat, name) <==> Tail(segs[i..], name, pos))
      invariant i == |segs| ==> Matches(pat, name)
    {
      var seg := segs[i];
      Around(segs, name, pos, i);
      if seg != [] {
        var isFirst, isLast := i == 0, i + 1 == |segs|;
        if isFirst && !startsStar {
          if !(|seg| <= |name| && name[..|seg|] == seg) {
            return false;
          }
          pos := |seg|;
        } else if isLast && !endsStar {
          if |name| < |seg| || |name| - |seg| < pos {
            return false;
          }
          if name[|name| - |seg|..] != seg {
            return false;
          }
        } else {
          var found := Find(name, seg, pos);
          if found.None? {
            return false;
          }
          Greedy(segs[i..], name, pos, found.value);
          pos := found.value + |seg|;
        }
      }
      i := i + 1;
    }
    return true;
  }

  /** What the current segment asks for. */
  lemma Around(segs: seq<string>, name: string, pos: nat, i: nat)
    requires i < |segs| && pos <= |name|
    ensures segs[i..][0] == segs[i] && (i + 1 < |segs| ==> segs[i..][1..] == segs[i + 1..])
    ensures i + 1 == |segs| ==> (Tail(segs[i..], name, pos) <==>
              |segs[i]| <= |name| && pos <= |name| - |segs[i]| && name[|name| - |segs[i]|..] == segs[i])
    ensures i + 1 < |segs| && segs[i] == [] ==> (Tail(segs[i..], name, pos) <==> Tail(segs[i + 1..], name, pos))
    ensures i + 1 < |segs| && (forall j: nat :: pos <= j ==> !Here(segs[i], name, j)) ==> !Tail(segs[i..], name, pos)
  {
    if i + 1 < |segs| && segs[i] == [] {
      Greedy(segs[i..], name, pos, pos);
    }
  }
}
