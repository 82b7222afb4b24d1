/** Id minting, shared by the request table and the document store: count up from the next candidate,
    skip zero and every id that is still live. */
module IdMint {
  import opened Statuses

  /** The candidate `j` places after `next`, around the 32-bit wrap. */
  function Ahead(next: u32, j: nat): u32 {
    if j == 0 then next else Inc32(Ahead(next, j - 1))
  }

  lemma {:induction false} AheadAhead(next: u32, i: nat, j: nat)
    ensures Ahead(Ahead(next, i), j) == Ahead(next, i + j)
  {
    if j > 0 {
      AheadAhead(next, i, j - 1);
    }
  }

  lemma {:induction false} AheadOneTurn(next: u32, j: nat)
    requires j <= TWO_32
    ensures Ahead(next, j) == if next + j < TWO_32 then next + j else next + j - TWO_32
  {
    if j > 0 {
      AheadOneTurn(next, j - 1);
    }
  }

  /** Within one turn of the counter no candidate recurs. */
  lemma AheadInjective(next: u32, i: nat, j: nat)
    requires i <= j < i + TWO_32
    requires Ahead(next, i) == Ahead(next, j)
    ensures i == j
  {
    AheadAhead(next, i, j - i);
    AheadOneTurn(Ahead(next, i), j - i);
  }

  /** How many candidates are skipped before the first one outside `avoid`. */
  function FirstGap(next: u32, avoid: set<u32>): (k: nat)
    ensures k <= |avoid|
    decreases |avoid|
  {
    if next !in avoid then 0 else 1 + FirstGap(Inc32(next), avoid - {next})
  }

  lemma {:induction false} FirstGapIsFree(next: u32, avoid: set<u32>)
    requires |avoid| < TWO_32
    ensures Ahead(next, FirstGap(next, avoid)) !in avoid
    decreases |avoid|
  {
    if next in avoid {
      var k := FirstGap(Inc32(next), avoid - {next});
      FirstGapIsFree(Inc32(next), avoid - {next});
      AheadAhead(next, 1, k);
      AheadOneTurn(next, 1 + k);
    }
  }

  /** Every candidate before the gap is taken. */
  lemma {:induction false} BeforeGapIsTaken(next: u32, avoid: set<u32>, j: nat)
    requires j < FirstGap(next, avoid)
    ensures Ahead(next, j) in avoid
    decreases |avoid|
  {
    if j > 0 {
      BeforeGapIsTaken(Inc32(next), avoid - {next}, j - 1);
      AheadAhead(next, 1, j - 1);
    }
  }

  /** The id handed out: the first candidate that is neither zero nor live. */
  function MintId(next: u32, live: set<u32>): u32
  {
    Ahead(next, FirstGap(next, live + {0}))
  }

  lemma UnionBound(s: set<u32>, x: u32)
    ensures |s + {x}| <= |s| + 1
  {
    if x in s {
      assert s + {x} == s;
    }
  }

  /** A minted id is not zero and not live, and is found within nine candidates of the loop. */
  lemma MintIsFresh(next: u32, live: set<u32>)
    requires |live| <= 7
    ensures |live + {0}| <= 8
    ensures MintId(next, live) != 0
    ensures MintId(next, live) !in live
    ensures FirstGap(next, live + {0}) + 1 <= 9
  {
    UnionBound(live, 0);
    FirstGapIsFree(next, live + {0});
  }

  // ------------------------------------------------------------ mint histories

  /** One mint: the candidate it started from, the ids live at that moment, how many candidates
      it skipped and the id it returned. */
  datatype Mint = Mint(next: u32, live: set<u32>, gap: nat, id: u32)

  ghost predicate ProperMint(m: Mint) {
    && |m.live| <= 7
    && |m.live + {0}| <= 8
    && m.gap == FirstGap(m.next, m.live + {0})
    && m.id == Ahead(m.next, m.gap)
  }

  /** A mint from `next` among `live` may follow mint `m`: the counter resumes after the last id,
      and an id becomes live only by being minted. */
  ghost predicate Follows(m: Mint, next: u32, live: set<u32>) {
    next == Inc32(m.id) && live <= m.live + {m.id}
  }

  ghost predicate Linked(log: seq<Mint>, k: nat)
    requires 0 < k < |log|
  {
    Follows(log[k - 1], log[k].next, log[k].live)
  }

  ghost predicate MintLog(log: seq<Mint>) {
    && (forall k {:trigger ProperMint(log[k])} :: 0 <= k < |log| ==> ProperMint(log[k]))
    && (forall k {:trigger Linked(log, k)} :: 0 < k < |log| ==> Linked(log, k))
  }

  lemma MintLogGrows(log: seq<Mint>, m: Mint)
    requires MintLog(log) && ProperMint(m)
    requires |log| > 0 ==> Follows(log[|log| - 1], m.next, m.live)
    ensures MintLog(log + [m])
  {
    var grown := log + [m];
    forall k | 0 <= k < |grown|
      ensures ProperMint(grown[k])
    {
      if k < |log| {
        assert ProperMint(log[k]);
      }
    }
    forall k | 0 < k < |grown|
      ensures Linked(grown, k)
    {
      if k < |log| {
        assert Linked(log, k);
      }
    }
  }

  /** How far the counter has travelled between the id minted at `i` and the id minted at `j`. */
  ghost function Distance(log: seq<Mint>, i: nat, j: nat): nat
    requires i <= j < |log|
    decreases j
  {
    if i == j then 0 else Distance(log, i, j - 1) + 1 + log[j].gap
  }

  lemma {:induction false} DistanceReaches(log: seq<Mint>, i: nat, j: nat)
    requires MintLog(log) && i <= j < |log|
    ensures Ahead(log[i].id, Distance(log, i, j)) == log[j].id
    decreases j
  {
    if i < j {
      DistanceReaches(log, i, j - 1);
      assert ProperMint(log[j]);
      NextCandidate(log, i, j, log[j].gap);
    }
  }

  /** The `n`-th candidate tried by mint `j`, counted from the id minted at `i`. */
  lemma NextCandidate(log: seq<Mint>, i: nat, j: nat, n: nat)
    requires MintLog(log) && i < j < |log|
    requires Ahead(log[i].id, Distance(log, i, j - 1)) == log[j - 1].id
    ensures Ahead(log[i].id, Distance(log, i, j - 1) + 1 + n) == Ahead(log[j].next, n)
  {
    var d := Distance(log, i, j - 1);
    assert Linked(log, j);
    AheadAhead(log[i].id, d, 1);
    AheadAhead(log[i].id, d + 1, n);
  }

  /** An id live at mint `k` was live at mint `i` or was minted in between. */
  lemma {:induction false} LiveOrigin(log: seq<Mint>, i: nat, k: nat, x: u32) returns (m: nat)
    requires MintLog(log) && i < k < |log| && x in log[k].live
    ensures x in log[i].live || (i <= m < k && log[m].id == x)
    decreases k
  {
    m := k - 1;
    assert Linked(log, k);
    if x != log[k - 1].id && i < k - 1 {
      m := LiveOrigin(log, i, k - 1, x);
    }
  }

  lemma {:induction false} DistanceGrows(log: seq<Mint>, i: nat, m: nat, k: nat)
    requires i <= m <= k < |log|
    ensures Distance(log, i, m) + (k - m) <= Distance(log, i, k)
    decreases k
  {
    if m < k {
      DistanceGrows(log, i, m, k - 1);
    }
  }

  /** Within one turn of the counter, a candidate that mint `k + 1` skips was already taken when `i` was minted. */
  lemma SkippedWasLive(log: seq<Mint>, i: nat, k: nat, n: nat)
    requires MintLog(log) && i <= k && k + 1 < |log| && n < log[k + 1].gap
    requires Distance(log, i, k) + 1 + n < TWO_32
    ensures Ahead(log[i].id, Distance(log, i, k) + 1 + n) in log[i].live + {0}
  {
    var offset := Distance(log, i, k) + 1 + n;
    var x := Ahead(log[i].id, offset);
    DistanceReaches(log, i, k);
    NextCandidate(log, i, k + 1, n);
    assert ProperMint(log[k + 1]);
    BeforeGapIsTaken(log[k + 1].next, log[k + 1].live + {0}, n);
    assert x in log[k + 1].live + {0};
    if x != 0 {
      var m := LiveOrigin(log, i, k + 1, x);
      if x !in log[i].live {
        DistanceReaches(log, i, m);
        DistanceGrows(log, i, m, k);
        AheadInjective(log[i].id, Distance(log, i, m), offset);
        assert false;
      }
    }
  }

  /** A set of offsets on the way from mint `i`, none beyond `last`, at which the candidate was skipped. */
  ghost predicate Skipped(m: Mint, s: set<nat>, last: nat) {
    forall o :: o in s ==> 1 <= o <= last && Ahead(m.id, o) in m.live + {0}
  }

  lemma SkipOneMore(m: Mint, s: set<nat>, last: nat)
    requires 1 <= last && Skipped(m, s, last - 1) && Ahead(m.id, last) in m.live + {0}
    ensures Skipped(m, s + {last}, last) && |s + {last}| == |s| + 1
  {
  }

  /** The offsets skipped on the way from mint `i` to the `n`-th candidate after mint `k`. */
  lemma {:induction false} SkippedOffsets(log: seq<Mint>, i: nat, k: nat, n: nat) returns (s: set<nat>)
    requires MintLog(log) && i <= k < |log|
    requires n > 0 ==> k + 1 < |log| && n <= log[k + 1].gap
    requires Distance(log, i, k) + n < TWO_32
    ensures |s| == Distance(log, i, k) + n - (k - i)
    ensures Skipped(log[i], s, Distance(log, i, k) + n)
    decreases k, n
  {
    if n > 0 {
      s := SkippedOffsets(log, i, k, n - 1);
      SkippedWasLive(log, i, k, n - 1);
      SkipOneMore(log[i], s, Distance(log, i, k) + n);
      s := s + {Distance(log, i, k) + n};
    } else if i == k {
      s := {};
    } else {
      s := SkippedOffsets(log, i, k - 1, log[k].gap);
    }
  }

  lemma {:induction false} OffsetsBound(id: u32, s: set<nat>, ids: set<u32>)
    requires forall o :: o in s ==> 0 <= o < TWO_32 && Ahead(id, o) in ids
    ensures |s| <= |ids|
    decreases |s|
  {
    if s != {} {
      var o :| o in s;
      var x := Ahead(id, o);
      forall p | p in s - {o}
        ensures 0 <= p < TWO_32 && Ahead(id, p) in ids - {x}
      {
        if Ahead(id, p) == x {
          AheadInjective(id, if o < p then o else p, if o < p then p else o);
        }
      }
      OffsetsBound(id, s - {o}, ids - {x});
    }
  }

  lemma FullTurn(id: u32, d: nat)
    requires d > 0 && Ahead(id, d) == id
    ensures d >= TWO_32
  {
    if d < TWO_32 {
      AheadOneTurn(id, d);
    }
  }

  /** The first mint after `i` that completes a turn of the counter. */
  lemma {:induction false} TurnCompletes(log: seq<Mint>, i: nat, j: nat) returns (k: nat)
    requires i < j < |log| && Distance(log, i, j) >= TWO_32
    ensures i < k <= j && Distance(log, i, k - 1) < TWO_32 <= Distance(log, i, k)
    decreases j
  {
    if Distance(log, i, j - 1) < TWO_32 {
      k := j;
    } else {
      k := TurnCompletes(log, i, j - 1);
    }
  }

  /** Two mints of the same id have at least 2^32 - 9 other mints between them. */
  lemma MintSpacing(log: seq<Mint>, i: nat, j: nat)
    requires MintLog(log) && i < j < |log| && log[i].id == log[j].id
    ensures j - i - 1 >= TWO_32 - 9
  {
    DistanceReaches(log, i, j);
    DistanceGrows(log, i, i, j);
    FullTurn(log[i].id, Distance(log, i, j));
    var k := TurnCompletes(log, i, j);
    var skipped := SkippedOffsets(log, i, k - 1, TWO_32 - 1 - Distance(log, i, k - 1));
    OffsetsBound(log[i].id, skipped, log[i].live + {0});
    assert ProperMint(log[i]);
  }
}
