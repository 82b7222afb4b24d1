/** Searching and splitting text at a separator. A `char` stands for one byte. */
module Texts {

  /** The first position of `c` from `start` on, or the length when there is none. */
  function Find(s: string, c: char, start: nat): (i: nat)
    requires start <= |s|
    ensures start <= i <= |s|
    ensures i < |s| ==> s[i] == c
    decreases |s| - start
  {
    if start == |s| || s[start] == c then start else Find(s, c, start + 1)
  }

  lemma {:induction false} NoneBefore(s: string, c: char, start: nat)
    requires start <= |s|
    ensures c !in s[start..Find(s, c, start)]
    decreases |s| - start
  {
    if start < |s| && s[start] != c {
      NoneBefore(s, c, start + 1);
      var i := Find(s, c, start);
      assert s[start..i] == [s[start]] + s[start + 1..i];
    }
  }

  lemma {:induction false} FindIs(s: string, c: char, start: nat, i: nat)
    requires start <= i <= |s| && c !in s[start..i] && (i < |s| ==> s[i] == c)
    ensures Find(s, c, start) == i
    decreases |s| - start
  {
    if start < i {
      assert s[start] == s[start..i][0];
      assert s[start + 1..i] == s[start..i][1..];
      FindIs(s, c, start + 1, i);
    }
  }

  /** The stretches of text between the separators, from `start` on. */
  function SplitFrom(s: string, c: char, start: nat): (r: seq<string>)
    requires start <= |s|
    ensures r != []
    decreases |s| - start
  {
    var end := Find(s, c, start);
    if end == |s| then [s[start..end]] else [s[start..end]] + SplitFrom(s, c, end + 1)
  }

  function Split(s: string, c: char): (r: seq<string>) { SplitFrom(s, c, 0) }

  lemma {:induction false} FindShift(a: string, b: string, c: char, k: nat)
    requires k <= |b|
    ensures Find(a + b, c, |a| + k) == |a| + Find(b, c, k)
    decreases |b| - k
  {
    if k < |b| && b[k] != c {
      FindShift(a, b, c, k + 1);
    }
  }

  lemma SliceShift(a: string, b: string, i: nat, j: nat)
    requires i <= j <= |b|
    ensures (a + b)[|a| + i..|a| + j] == b[i..j]
  {
  }

  /** The parts of a text, from the first part and the parts after it. */
  function Parts(part: string, more: bool, rest: seq<string>): seq<string> {
    if more then [part] + rest else [part]
  }

  lemma SplitAt(s: string, c: char, start: nat, end: nat, rest: seq<string>)
    requires start <= end <= |s| && end == Find(s, c, start)
    requires end < |s| ==> rest == SplitFrom(s, c, end + 1)
    ensures SplitFrom(s, c, start) == Parts(s[start..end], end < |s|, rest)
  {
  }

  /** Text in front does not change how the rest is split. */
  lemma {:induction false} SplitShift(a: string, b: string, c: char, k: nat)
    requires k <= |b|
    ensures SplitFrom(a + b, c, |a| + k) == SplitFrom(b, c, k)
    decreases |b| - k
  {
    var s, end, rest := a + b, Find(b, c, k), [];
    FindShift(a, b, c, k);
    if end < |b| {
      SplitShift(a, b, c, end + 1);
      rest := SplitFrom(b, c, end + 1);
    }
    SliceShift(a, b, k, end);
    SplitAt(s, c, |a| + k, |a| + end, rest);
    SplitAt(b, c, k, end, rest);
  }

  /** A stretch without separators is the first part of a split, and of a split of more text. */
  lemma SplitFirst(part: string, rest: string, c: char)
    requires c !in part
    ensures Split(part, c) == [part]
    ensures Split(part + [c] + rest, c) == [part] + Split(rest, c)
  {
    assert part[0..|part|] == part;
    FindIs(part, c, 0, |part|);
    var whole := part + [c] + rest;
    assert whole[0..|part|] == part;
    FindIs(whole, c, 0, |part|);
    SplitShift(part + [c], rest, c, 0);
  }

  /** No part of a split holds the separator. */
  lemma {:induction false} SplitParts(s: string, c: char, start: nat)
    requires start <= |s|
    ensures forall k :: 0 <= k < |SplitFrom(s, c, start)| ==> c !in SplitFrom(s, c, start)[k]
    decreases |s| - start
  {
    var end := Find(s, c, start);
    NoneBefore(s, c, start);
    if end < |s| {
      SplitParts(s, c, end + 1);
    }
  }
}
