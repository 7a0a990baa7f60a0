/**
 The string operations that the channel processor borrows from Python's `str`:
 `s.split(c)` with a one-character separator, `sep.join(xs)`, and what they
 promise of each other.
 */
module Text {

  /** The number of occurrences of `c` in `s` (Python's `s.count(c)`). */
  function Count(s: string, c: char): nat
  {
    if s == [] then 0 else (if s[0] == c then 1 else 0) + Count(s[1..], c)
  }

  /** The index of the first `c` in `s`, or `|s|` when `s` has none (`s.find(c)`, with `|s|` for -1). */
  function Find(s: string, c: char): (i: nat)
    ensures i <= |s|
    ensures c !in s[..i]
    ensures i < |s| ==> s[i] == c
  {
    if s == [] then 0
    else if s[0] == c then 0
    else
      var j := Find(s[1..], c);
      assert s[..1 + j] == [s[0]] + s[1..][..j];
      1 + j
  }

  /**
   Python's `s.split(c)`: the maximal pieces of `s` between occurrences of `c`.
   There is always at least one piece; the empty string splits into `[""]`.
   */
  function Split(s: string, c: char): (r: seq<string>)
    ensures |r| >= 1
    ensures forall k :: 0 <= k < |r| ==> c !in r[k]
    decreases |s|
  {
    var i := Find(s, c);
    if i == |s| then [s] else [s[..i]] + Split(s[i + 1..], c)
  }

  /** Python's `sep.join(xs)`: it starts with the first element and ends with the last. */
  function Join(sep: string, xs: seq<string>): (r: string)
    ensures xs == [] ==> r == ""
    ensures xs != [] ==> xs[0] <= r
  {
    if xs == [] then ""
    else if |xs| == 1 then xs[0]
    else xs[0] + sep + Join(sep, xs[1..])
  }

  /** `sep + xs[0] + sep + xs[1] + ...`: every element preceded by the separator. */
  function Preceded(sep: string, xs: seq<string>): string
  {
    if xs == [] then "" else sep + xs[0] + Preceded(sep, xs[1..])
  }

  /** Every token with one leading space. */
  function Spaced(xs: seq<string>): (r: seq<string>)
    ensures |r| == |xs|
    ensures forall k :: 0 <= k < |xs| ==> r[k] == " " + xs[k]
  {
    seq(|xs|, k requires 0 <= k < |xs| => " " + xs[k])
  }

  /** No element of `xs` contains `c`. */
  predicate NoneContain(xs: seq<string>, c: char)
  {
    forall k :: 0 <= k < |xs| ==> c !in xs[k]
  }

  lemma {:induction false} CountAppend(a: string, b: string, c: char)
    ensures Count(a + b, c) == Count(a, c) + Count(b, c)
    decreases |a|
  {
    if a == [] {
      assert a + b == b;
    } else {
      assert (a + b)[1..] == a[1..] + b;
      CountAppend(a[1..], b, c);
    }
  }

  lemma CountAbsent(s: string, c: char)
    requires c !in s
    ensures Count(s, c) == 0
    decreases |s|
  {
    if s != [] {
      CountAbsent(s[1..], c);
    }
  }

  /** Splitting on `c` yields one more piece than `s` has occurrences of `c`. */
  lemma {:induction false} SplitCount(s: string, c: char)
    ensures |Split(s, c)| == Count(s, c) + 1
    decreases |s|
  {
    var i := Find(s, c);
    CountAbsent(s[..i], c);
    if i < |s| {
      assert s == s[..i] + [c] + s[i + 1..];
      CountAppend(s[..i] + [c], s[i + 1..], c);
      CountAppend(s[..i], [c], c);
      SplitCount(s[i + 1..], c);
    } else {
      assert s[..i] == s;
    }
  }

  /** Splitting `a + [c] + b` where `a` has no `c` peels `a` off as the first piece. */
  lemma SplitAfter(a: string, c: char, b: string)
    requires c !in a
    ensures Split(a + [c] + b, c) == [a] + Split(b, c)
  {
    var s := a + [c] + b;
    assert s[|a|] == c;
    assert s[..|a|] == a;
    assert s[|a| + 1..] == b;
    assert Find(s, c) == |a|;
  }

  /** A string without `c` is a single piece. */
  lemma SplitAbsent(s: string, c: char)
    requires c !in s
    ensures Split(s, c) == [s]
  {
    assert s[..Find(s, c)] == s;
  }

  /** Joining a head in front of a non-empty list puts one separator between them. */
  lemma JoinPrepend(sep: string, x: string, xs: seq<string>)
    requires xs != []
    ensures Join(sep, [x] + xs) == x + sep + Join(sep, xs)
  {
    assert ([x] + xs)[1..] == xs;
  }

  /** Joining the pieces back with the separator gives the original string. */
  lemma {:induction false} JoinSplit(s: string, c: char)
    ensures Join([c], Split(s, c)) == s
    decreases |s|
  {
    var i := Find(s, c);
    if i == |s| {
      SplitAbsent(s, c);
    } else {
      var a, rest := s[..i], s[i + 1..];
      assert s == a + [c] + rest;
      SplitAfter(a, c, rest);
      JoinSplit(rest, c);
      JoinPrepend([c], a, Split(rest, c));
    }
  }

  /** Splitting with the separator of a join gives the joined pieces back, when none contains it. */
  lemma {:induction false} SplitJoin(xs: seq<string>, c: char)
    requires xs != []
    requires NoneContain(xs, c)
    ensures Split(Join([c], xs), c) == xs
    decreases |xs|
  {
    if |xs| == 1 {
      SplitAbsent(xs[0], c);
    } else {
      assert NoneContain(xs[1..], c);
      SplitJoin(xs[1..], c);
      SplitAfter(xs[0], c, Join([c], xs[1..]));
    }
  }

  /** A join of a non-empty list is its head followed by every other element preceded by the separator. */
  lemma {:induction false} JoinCons(sep: string, x: string, xs: seq<string>)
    ensures Join(sep, [x] + xs) == x + Preceded(sep, xs)
    decreases |xs|
  {
    if xs == [] {
      assert [x] + xs == [x];
    } else {
      assert ([x] + xs)[1..] == xs;
      assert [xs[0]] + xs[1..] == xs;
      JoinCons(sep, xs[0], xs[1..]);
    }
  }

  /**
   A record written with `", "` between its fields and read back by splitting
   on `","` gives the first field and every further field with one leading space.
   */
  lemma {:induction false} SplitCommaSpaced(name: string, xs: seq<string>)
    requires ',' !in name
    requires NoneContain(xs, ',')
    ensures Split(name + Preceded(", ", xs), ',') == [name] + Spaced(xs)
    decreases |xs|
  {
    if xs == [] {
      assert name + Preceded(", ", xs) == name;
      SplitAbsent(name, ',');
    } else {
      var head, rest := " " + xs[0], xs[1..];
      assert NoneContain(rest, ',');
      PrecededSpaced(name, xs[0], rest);
      SplitAfter(name, ',', head + Preceded(", ", rest));
      SplitCommaSpaced(head, rest);
      SpacedCons(xs);
    }
  }

  /** The record after `name` starts with a comma, then the first value with its leading space. */
  lemma PrecededSpaced(name: string, x: string, xs: seq<string>)
    ensures name + Preceded(", ", [x] + xs) == name + [','] + ((" " + x) + Preceded(", ", xs))
  {
    assert ([x] + xs)[0] == x && ([x] + xs)[1..] == xs;
  }

  lemma SpacedCons(xs: seq<string>)
    requires xs != []
    ensures Spaced(xs) == [" " + xs[0]] + Spaced(xs[1..])
  {
  }
}
