/** What each parser event makes the limit pass check, told apart from the checking: the pass fails exactly
    where an audit of these dues fails, over any stream of events, whole or broken off. */
module JsonCharges {
  import opened Statuses
  import opened JsonLimits

  /** Something the pass checks: a key for NULs, an opened container for its depth, a leaf for its share. */
  datatype Due = KeyDue(hasNul: bool) | DepthDue(depth: nat) | LeafDue(bytes: nat)

  /** Running through dues from the given totals. */
  datatype Audit = Passed(entries: nat, bytes: nat) | Failed(status: Status)

  function AuditDue(d: Due, entries: nat, bytes: nat): Audit {
    match d
    case KeyDue(hasNul) => if hasNul then Failed(ParseError) else Passed(entries, bytes)
    case DepthDue(depth) => if depth > MAX_DEPTH then Failed(NestingTooDeep) else Passed(entries, bytes)
    case LeafDue(size) =>
      if entries + 1 > MAX_ENTRIES then Failed(TooManyEntries)
      else if bytes + size > MAX_KEY_BYTES then Failed(KeyTextTooLarge)
      else Passed(entries + 1, bytes + size)
  }

  function AuditDues(dues: seq<Due>, entries: nat, bytes: nat): Audit {
    if dues == [] then Passed(entries, bytes)
    else
      var a := AuditDue(dues[0], entries, bytes);
      if a.Failed? then a else AuditDues(dues[1..], a.entries, a.bytes)
  }

  // ------------------------------------------------------------ what an event is charged

  function DuesNow(p: Pass, e: Event): seq<Due>
    requires e.CloseEvent? ==> p.frames != []
  {
    match e
    case LeafEvent => [LeafDue(NextKeyBytes(p))]
    case BinaryEvent => [KeyDue(true)]
    case OpenEvent(_) => [DepthDue(|p.frames| + 1)]
    case KeyEvent(name) => [KeyDue('\0' in name)]
    case CloseEvent => if p.justOpened then [LeafDue(p.frames[|p.frames| - 1].prefixBytes)] else []
  }

  /** Where the pass goes on if nothing is checked. */
  function Glide(p: Pass, e: Event): Pass
    requires e.CloseEvent? ==> p.frames != []
  {
    match e
    case LeafEvent => p.(frames := Advance(p.frames), justOpened := false)
    case BinaryEvent => p
    case OpenEvent(isArray) =>
      p.(frames := Advance(p.frames) + [KeyFrame(isArray, 0, NextKeyBytes(p))], justOpened := true)
    case KeyEvent(name) => p.(pendingTokenBytes := TokenBytes(name), justOpened := false)
    case CloseEvent => p.(frames := p.frames[..|p.frames| - 1], justOpened := false)
  }

  /** Everything a stream of events is charged. */
  function Dues(p: Pass, events: seq<Event>): seq<Due>
    requires Nested(events, |p.frames|)
    decreases |events|
  {
    if events == [] then [] else DuesNow(p, events[0]) + Dues(Glide(p, events[0]), events[1..])
  }

  /** Two stages of the pass that differ in their totals at most. */
  ghost predicate SameShape(p: Pass, q: Pass) {
    p.frames == q.frames && p.pendingTokenBytes == q.pendingTokenBytes && p.justOpened == q.justOpened
  }

  lemma ShapeStays(p: Pass, q: Pass, e: Event)
    requires SameShape(p, q) && (e.CloseEvent? ==> p.frames != [])
    ensures DuesNow(p, e) == DuesNow(q, e) && SameShape(Glide(p, e), Glide(q, e))
  {
  }

  lemma {:induction false} DuesOfShape(p: Pass, q: Pass, events: seq<Event>)
    requires SameShape(p, q) && Nested(events, |p.frames|)
    ensures Dues(p, events) == Dues(q, events)
    decreases |events|
  {
    if events != [] {
      var e := events[0];
      ShapeStays(p, q, e);
      DuesOfShape(Glide(p, e), Glide(q, e), events[1..]);
      assert Dues(p, events) == DuesNow(p, e) + Dues(Glide(p, e), events[1..]);
      assert Dues(q, events) == DuesNow(q, e) + Dues(Glide(q, e), events[1..]);
    }
  }

  // ------------------------------------------------------------ the pass is an audit of the dues

  /** The outcome of an audit, as an outcome of the pass. */
  ghost predicate Matches(got: Result<Pass>, audit: Audit) {
    match audit
    case Failed(status) => got == Failure(status)
    case Passed(entries, bytes) => got.Success? && got.value.entryCount == entries && got.value.keyTotal == bytes
  }

  lemma AuditSingle(d: Due, entries: nat, bytes: nat)
    ensures AuditDues([d], entries, bytes) == AuditDue(d, entries, bytes)
  {
    assert [d][1..] == [];
  }

  /** One event: the pass charges its dues, and goes on where it would have gone unchecked. */
  lemma ReactIsAudit(p: Pass, e: Event)
    requires e.CloseEvent? ==> p.frames != []
    ensures Matches(React(p, e), AuditDues(DuesNow(p, e), p.entryCount, p.keyTotal))
    ensures React(p, e).Success? ==> SameShape(React(p, e).value, Glide(p, e))
  {
    if DuesNow(p, e) != [] {
      AuditSingle(DuesNow(p, e)[0], p.entryCount, p.keyTotal);
    }
  }

  lemma {:induction false} AuditInARow(a: seq<Due>, b: seq<Due>, entries: nat, bytes: nat)
    ensures AuditDues(a + b, entries, bytes) ==
            var first := AuditDues(a, entries, bytes);
            if first.Failed? then first else AuditDues(b, first.entries, first.bytes)
  {
    if a == [] {
      assert a + b == b;
    } else {
      assert (a + b)[1..] == a[1..] + b;
      var one := AuditDue(a[0], entries, bytes);
      if one.Passed? {
        AuditInARow(a[1..], b, one.entries, one.bytes);
      }
    }
  }

  /** Over any stream the pass reports what an audit of the stream's dues reports, with the same totals. */
  lemma {:induction false} FeedIsAudit(p: Pass, events: seq<Event>)
    requires Nested(events, |p.frames|)
    ensures Matches(Feed(p, events), AuditDues(Dues(p, events), p.entryCount, p.keyTotal))
    decreases |events|
  {
    if events != [] {
      var e, next := events[0], React(p, events[0]);
      ReactIsAudit(p, e);
      AuditInARow(DuesNow(p, e), Dues(Glide(p, e), events[1..]), p.entryCount, p.keyTotal);
      if next.Success? {
        DuesOfShape(next.value, Glide(p, e), events[1..]);
        FeedIsAudit(next.value, events[1..]);
      }
    }
  }

  // ------------------------------------------------------------ streams that break off

  lemma {:induction false} NestedFront(front: seq<Event>, rest: seq<Event>, depth: nat)
    requires Nested(front + rest, depth)
    ensures Nested(front, depth)
    decreases |front|
  {
    if front != [] {
      assert (front + rest)[1..] == front[1..] + rest;
      match front[0] {
        case OpenEvent(_) => NestedFront(front[1..], rest, depth + 1);
        case CloseEvent => NestedFront(front[1..], rest, depth - 1);
        case _ => NestedFront(front[1..], rest, depth);
      }
    }
  }

  /** The front of a stream is charged the front of the stream's dues. */
  lemma {:induction false} DuesOfFront(p: Pass, front: seq<Event>, rest: seq<Event>)
    requires Nested(front + rest, |p.frames|) && Nested(front, |p.frames|)
    ensures Dues(p, front) <= Dues(p, front + rest)
    decreases |front|
  {
    if front != [] {
      assert (front + rest)[1..] == front[1..] + rest;
      DuesOfFront(Glide(p, front[0]), front[1..], rest);
    }
  }

  /** How many checks these events bring: one each, but a closing only when nothing was inside. */
  function CheckCount(events: seq<Event>, justOpened: bool): nat {
    if events == [] then 0
    else (if events[0].CloseEvent? && !justOpened then 0 else 1) + CheckCount(events[1..], events[0].OpenEvent?)
  }

  predicate NoBinary(events: seq<Event>) { BinaryEvent !in events }

  lemma {:induction false} DuesCount(p: Pass, events: seq<Event>)
    requires Nested(events, |p.frames|) && NoBinary(events)
    ensures |Dues(p, events)| == CheckCount(events, p.justOpened)
    decreases |events|
  {
    if events != [] {
      DuesCount(Glide(p, events[0]), events[1..]);
    }
  }
}
