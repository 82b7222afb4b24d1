/** Finite sums over sequences, used to count slots, workers, entries and bytes. */
module Sums {

  function Sum<T>(s: seq<T>, f: T -> int): int {
    if s == [] then 0 else Sum(s[..|s| - 1], f) + f(s[|s| - 1])
  }

  lemma {:induction false} SumUpdate<T>(s: seq<T>, i: nat, v: T, f: T -> int)
    requires i < |s|
    ensures Sum(s[i := v], f) == Sum(s, f) - f(s[i]) + f(v)
  {
    var last := |s| - 1;
    if i == last {
      assert s[i := v][..last] == s[..last];
    } else {
      assert s[i := v][..last] == s[..last][i := v];
      SumUpdate(s[..last], i, v, f);
    }
  }

  lemma SumAppend<T>(s: seq<T>, v: T, f: T -> int)
    ensures Sum(s + [v], f) == Sum(s, f) + f(v)
  {
    assert (s + [v])[..|s|] == s;
  }

  lemma {:induction false} SumConcat<T>(s: seq<T>, t: seq<T>, f: T -> int)
    ensures Sum(s + t, f) == Sum(s, f) + Sum(t, f)
  {
    if t == [] {
      assert s + t == s;
    } else {
      var last := |t| - 1;
      assert s + t == (s + t[..last]) + [t[last]];
      assert t == t[..last] + [t[last]];
      SumConcat(s, t[..last], f);
      SumAppend(s + t[..last], t[last], f);
    }
  }

  /** Two sequences that weigh the same at every position have the same sum. */
  lemma {:induction false} SumPointwise<T>(s: seq<T>, t: seq<T>, f: T -> int, g: T -> int)
    requires |s| == |t|
    requires forall i :: 0 <= i < |s| ==> f(s[i]) <= g(t[i])
    ensures Sum(s, f) <= Sum(t, g)
  {
    if s != [] {
      var last := |s| - 1;
      assert f(s[last]) <= g(t[last]);
      SumPointwise(s[..last], t[..last], f, g);
    }
  }

  lemma {:induction false} SumNonNegative<T>(s: seq<T>, f: T -> int)
    requires forall i :: 0 <= i < |s| ==> 0 <= f(s[i])
    ensures 0 <= Sum(s, f)
  {
    if s != [] {
      SumNonNegative(s[..|s| - 1], f);
    }
  }

  /** A sum of weights that are not negative is at least each one of them. */
  lemma {:induction false} SumAtLeast<T>(s: seq<T>, i: nat, f: T -> int)
    requires i < |s|
    requires forall k :: 0 <= k < |s| ==> 0 <= f(s[k])
    ensures f(s[i]) <= Sum(s, f)
  {
    var last := |s| - 1;
    if i == last {
      SumNonNegative(s[..last], f);
    } else {
      SumAtLeast(s[..last], i, f);
    }
  }

  /** A sum of weights that are not negative is zero only when each of them is. */
  lemma {:induction false} SumZero<T>(s: seq<T>, f: T -> int)
    requires forall i :: 0 <= i < |s| ==> f(s[i]) == 0
    ensures Sum(s, f) == 0
  {
    if s != [] {
      SumZero(s[..|s| - 1], f);
    }
  }

  /** Counting by weights of one and zero is counting positions. */
  lemma {:induction false} SumCounts<T>(s: seq<T>, f: T -> int) returns (counted: set<int>)
    requires forall i :: 0 <= i < |s| ==> f(s[i]) == 0 || f(s[i]) == 1
    ensures forall i :: i in counted <==> 0 <= i < |s| && f(s[i]) == 1
    ensures Sum(s, f) == |counted|
  {
    counted := {};
    if s != [] {
      var last := |s| - 1;
      counted := SumCounts(s[..last], f);
      if f(s[last]) == 1 {
        counted := counted + {last};
      }
    }
  }

  /** Three classes that exclude each other hold no more elements than there are. */
  lemma {:induction false} SumWithin<T>(s: seq<T>, f: T -> int, g: T -> int, h: T -> int)
    requires forall i :: 0 <= i < |s| ==> f(s[i]) + g(s[i]) + h(s[i]) <= 1
    ensures Sum(s, f) + Sum(s, g) + Sum(s, h) <= |s|
  {
    if s != [] {
      SumWithin(s[..|s| - 1], f, g, h);
    }
  }
}
