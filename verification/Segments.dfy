/**
 Splitting and joining hop lists around the separator "/next/", as strings.Split does:
 leftmost occurrence first, occurrences never overlapping. The separator begins and ends
 with '/', so two occurrences may share one character.
 */
module Segments {

  const SEP: string := "/next/"

  /** The separator occurs in s at position i. */
  predicate At(s: string, i: nat) {
    i + |SEP| <= |s| && s[i..i + |SEP|] == SEP
  }

  /** The separator occurs nowhere in s. */
  ghost predicate Free(s: string) {
    forall i: nat :: !At(s, i)
  }

  /** Putting a separator after s makes no occurrence earlier than that one. */
  ghost predicate Closed(s: string) {
    Free(s + "/")
  }

  /** The first occurrence at or after i, or -1. */
  function IndexFrom(s: string, i: nat): (r: int)
    requires i <= |s|
    ensures r == -1 ==> forall k: nat :: i <= k ==> !At(s, k)
    ensures r != -1 ==> i <= r && At(s, r) && forall k: nat :: i <= k < r ==> !At(s, k)
    decreases |s| - i
  {
    if At(s, i) then i else if i == |s| then -1 else IndexFrom(s, i + 1)
  }

  function Split(s: string): (r: seq<string>)
    ensures |r| > 0
    decreases |s|
  {
    var m := IndexFrom(s, 0);
    if m == -1 then [s] else [s[..m]] + Split(s[m + |SEP|..])
  }

  function Join(xs: seq<string>): string {
    if |xs| == 0 then "" else if |xs| == 1 then xs[0] else xs[0] + SEP + Join(xs[1..])
  }

  /** What the pieces of a leftmost split look like. */
  ghost predicate WellSplit(xs: seq<string>) {
    |xs| > 0 && Free(xs[|xs| - 1]) && forall i :: 0 <= i < |xs| - 1 ==> Closed(xs[i])
  }

  /** The non-empty pieces, in order. */
  function Compact(xs: seq<string>): (r: seq<string>)
    ensures forall x :: x in r ==> x in xs && x != ""
    ensures |r| <= |xs|
  {
    if xs == [] then [] else (if xs[0] == "" then [] else [xs[0]]) + Compact(xs[1..])
  }

  /** The index of the first separator, searched position by position. */
  method Index(s: string) returns (r: int)
    ensures r == IndexFrom(s, 0)
  {
    var i := 0;
    while i < |s|
      invariant 0 <= i <= |s|
      invariant IndexFrom(s, 0) == IndexFrom(s, i)
    {
      if At(s, i) {
        return i;
      }
      i := i + 1;
    }
    r := -1;
  }

  /** strings.Split(s, "/next/"). */
  method SplitLoop(s: string) returns (pieces: seq<string>)
    ensures pieces == Split(s)
  {
    pieces := [];
    var rest := s;
    var m := Index(rest);
    while m != -1
      invariant m == IndexFrom(rest, 0)
      invariant pieces + Split(rest) == Split(s)
      decreases |rest|
    {
      ghost var whole := Split(rest);
      assert whole == [rest[..m]] + Split(rest[m + |SEP|..]);
      pieces, rest := pieces + [rest[..m]], rest[m + |SEP|..];
      m := Index(rest);
    }
    pieces := pieces + [rest];
  }

  lemma FreePart(x: string, y: string, z: string)
    requires Free(x + y + z)
    ensures Free(y)
  {
    forall i: nat ensures !At(y, i) {
      if At(y, i) {
        var s := x + y + z;
        var k := |x| + i;
        assert s[k..k + |SEP|] == y[i..i + |SEP|];
        assert At(s, k);
      }
    }
  }

  /** The only proper self-overlap of the separator is one character. */
  lemma ClosedBefore(x: string, y: string)
    requires Closed(x)
    ensures IndexFrom(x + SEP + y, 0) == |x|
  {
    var s := x + SEP + y;
    assert s[|x|..|x| + |SEP|] == SEP;
    assert At(s, |x|);
    assert SEP == ['/', 'n', 'e', 'x', 't', '/'];
    forall i: nat | i < |x| ensures !At(s, i) {
      var d := |x| - i;
      if d < |SEP| - 1 {
        assert s[i..i + |SEP|][d] == s[|x|] == SEP[0] != SEP[d];
      } else {
        assert s[..|x| + 1] == x + "/";
        assert s[..|x| + 1][i..i + |SEP|] == s[i..i + |SEP|];
        assert !At(x + "/", i);
      }
    }
  }

  lemma {:induction false} SplitWell(s: string)
    ensures WellSplit(Split(s))
    decreases |s|
  {
    var m := IndexFrom(s, 0);
    if m == -1 {
    } else {
      var x, rest := s[..m], s[m + |SEP|..];
      SplitWell(rest);
      assert Closed(x) by {
        forall i: nat ensures !At(x + "/", i) {
          if At(x + "/", i) {
            assert x + "/" == s[..m + 1];
            assert s[i..i + |SEP|] == (x + "/")[i..i + |SEP|];
            assert At(s, i);
          }
        }
      }
      var xs := Split(rest);
      assert Split(s) == [x] + xs;
      assert forall i :: 0 < i <= |xs| ==> ([x] + xs)[i] == xs[i - 1];
    }
  }

  /** Splitting loses nothing. */
  lemma {:induction false} JoinSplit(s: string)
    ensures Join(Split(s)) == s
    decreases |s|
  {
    var m := IndexFrom(s, 0);
    if m == -1 {
    } else {
      var rest := s[m + |SEP|..];
      JoinSplit(rest);
      assert Split(s)[1..] == Split(rest);
      assert s == s[..m] + s[m..m + |SEP|] + rest;
    }
  }

  lemma {:induction false} SplitJoin(xs: seq<string>)
    requires WellSplit(xs)
    ensures Split(Join(xs)) == xs
    decreases |xs|
  {
    if |xs| == 1 {
      assert xs == [xs[0]];
    } else {
      var x, ys := xs[0], xs[1..];
      SplitJoin(ys);
      ClosedBefore(x, Join(ys));
      var s := x + SEP + Join(ys);
      assert s[..|x|] == x && s[|x| + |SEP|..] == Join(ys);
      assert xs == [x] + ys;
    }
  }

  /** The split is the one and only well-split list of pieces that joins back to s. */
  lemma SplitUnique(s: string, xs: seq<string>)
    ensures xs == Split(s) <==> WellSplit(xs) && Join(xs) == s
  {
    SplitWell(s);
    JoinSplit(s);
    if WellSplit(xs) && Join(xs) == s {
      SplitJoin(xs);
    }
  }

  lemma ClosedIsFree(x: string)
    requires Closed(x)
    ensures Free(x)
  {
    assert x + "/" == "" + x + "/";
    FreePart("", x, "/");
  }

  lemma {:induction false} CompactWell(xs: seq<string>)
    requires WellSplit(xs) && Compact(xs) != []
    ensures WellSplit(Compact(xs))
    decreases |xs|
  {
    var ys := xs[1..];
    if |xs| == 1 {
      assert Compact(xs) == xs;
    } else {
      var cs := Compact(ys);
      if cs == [] {
        ClosedIsFree(xs[0]);
      } else {
        CompactWell(ys);
        if xs[0] != "" {
          var r := [xs[0]] + cs;
          assert r[|r| - 1] == cs[|cs| - 1];
          forall i | 0 <= i < |r| - 1 ensures Closed(r[i]) {
            if i > 0 { assert r[i] == cs[i - 1]; }
          }
        }
      }
    }
  }

  /** Dropping the empty pieces and joining gives a list that splits into exactly the pieces kept. */
  lemma NormalForm(s: string)
    requires Compact(Split(s)) != []
    ensures Split(Join(Compact(Split(s)))) == Compact(Split(s))
  {
    SplitWell(s);
    CompactWell(Split(s));
    SplitJoin(Compact(Split(s)));
  }

  lemma SlashFreeClosed(x: string)
    requires '/' !in x
    ensures Closed(x)
  {
    forall i: nat ensures !At(x + "/", i) {
      if i + |SEP| <= |x + "/"| {
        assert (x + "/")[i..i + |SEP|][0] == x[i];
      }
    }
  }

  lemma {:induction false} JoinChars(xs: seq<string>, s: string, c: char)
    requires Join(xs) == s && c !in s
    ensures forall x :: x in xs ==> c !in x
    decreases |xs|
  {
    if |xs| > 1 {
      var ys := xs[1..];
      assert s == xs[0] + SEP + Join(ys);
      assert forall k :: 0 <= k < |Join(ys)| ==> s[|xs[0]| + |SEP| + k] == Join(ys)[k];
      JoinChars(ys, Join(ys), c);
      assert forall k :: 0 <= k < |xs[0]| ==> s[k] == xs[0][k];
      assert xs == [xs[0]] + ys;
    } else if |xs| == 1 {
      assert xs == [xs[0]];
    }
  }

  lemma {:induction false} CharsJoin(xs: seq<string>, c: char)
    requires c !in SEP && forall x :: x in xs ==> c !in x
    ensures c !in Join(xs)
    decreases |xs|
  {
    if |xs| > 1 {
      CharsJoin(xs[1..], c);
    }
  }

  lemma {:induction false} CompactLength(xs: seq<string>)
    ensures |Join(Compact(xs))| <= |Join(xs)|
    decreases |xs|
  {
    if |xs| > 1 {
      CompactLength(xs[1..]);
      var cs := Compact(xs[1..]);
      if xs[0] != "" {
        assert Compact(xs) == [xs[0]] + cs;
        assert ([xs[0]] + cs)[1..] == cs;
      } else {
        assert Compact(xs) == [] + cs == cs;
      }
    } else if |xs| == 1 {
      assert Compact(xs[1..]) == [];
    }
  }
}
