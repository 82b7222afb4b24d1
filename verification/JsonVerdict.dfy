/** What the limit pass decides, told from the tree instead of from the event stream: the first violation in
    text order, and exact totals of the flat list it never builds. */
module JsonVerdict {
  import opened Statuses
  import opened Numerals
  import opened JsonTree
  import opened JsonPath
  import opened JsonFlatten
  import opened JsonLimits
  import opened JsonCharges

  // ------------------------------------------------------------ the event stream of a tree

  /** The events of a value, followed by `rest`. */
  function Stream(node: Json, rest: seq<Event>): seq<Event>
    decreases Size(node), 0
  {
    if IsContainer(node) then [OpenEvent(node.Array?)] + StreamKids(Kids(node), node.Array?, [CloseEvent] + rest)
    else [LeafEvent] + rest
  }

  function StreamKids(kids: seq<Field>, inArray: bool, rest: seq<Event>): seq<Event>
    decreases SizeFields(kids), 1
  {
    if kids == [] then rest
    else
      var values := Stream(kids[0].value, StreamKids(kids[1..], inArray, rest));
      if inArray then values else [KeyEvent(kids[0].key)] + values
  }

  function Events(node: Json): seq<Event> { Stream(node, []) }

  // ------------------------------------------------------------ the checks a reader of the limits would list

  /** One thing the limits say about the text, in text order. */
  datatype Check = KeyCheck(name: string) | DepthCheck(depth: nat) | LeafCheck(key: string)

  function Checks(node: Json, at: string, depth: nat): seq<Check>
    decreases Size(node), 0
  {
    if IsNonEmptyContainer(node) then [DepthCheck(depth)] + ChecksKids(Kids(node), node.Array?, at, depth + 1)
    else if IsContainer(node) then [DepthCheck(depth), LeafCheck(at)]
    else [LeafCheck(at)]
  }

  function ChecksKids(kids: seq<Field>, inArray: bool, at: string, depth: nat): seq<Check>
    decreases SizeFields(kids), 1
  {
    if kids == [] then []
    else
      (if inArray then [] else [KeyCheck(kids[0].key)]) +
      (Checks(kids[0].value, ChildPath(at, kids[0].key), depth) + ChecksKids(kids[1..], inArray, at, depth))
  }

  /** A check as the pass makes it: sizes instead of texts. */
  function DueOf(c: Check): Due {
    match c
    case KeyCheck(name) => KeyDue('\0' in name)
    case DepthCheck(depth) => DepthDue(depth)
    case LeafCheck(key) => LeafDue(|key|)
  }

  function AuditOne(c: Check, entries: nat, bytes: nat): Audit { AuditDue(DueOf(c), entries, bytes) }

  function AuditAll(checks: seq<Check>, entries: nat, bytes: nat): Audit {
    if checks == [] then Passed(entries, bytes)
    else
      var a := AuditOne(checks[0], entries, bytes);
      if a.Failed? then a else AuditAll(checks[1..], a.entries, a.bytes)
  }

  function DuesOf(checks: seq<Check>): (r: seq<Due>)
    ensures |r| == |checks|
    ensures forall k :: 0 <= k < |r| ==> r[k] == DueOf(checks[k])
  {
    seq(|checks|, k requires 0 <= k < |checks| => DueOf(checks[k]))
  }

  lemma {:induction false} AuditAllIsDues(checks: seq<Check>, entries: nat, bytes: nat)
    ensures AuditAll(checks, entries, bytes) == AuditDues(DuesOf(checks), entries, bytes)
  {
    if checks != [] {
      assert DuesOf(checks)[1..] == DuesOf(checks[1..]);
      var one := AuditOne(checks[0], entries, bytes);
      if one.Passed? {
        AuditAllIsDues(checks[1..], one.entries, one.bytes);
      }
    }
  }

  // ------------------------------------------------------------ the pass over one tree

  lemma {:induction false} NestedTree(node: Json, rest: seq<Event>, depth: nat)
    ensures Nested(Stream(node, rest), depth) <==> Nested(rest, depth)
    decreases Size(node), 0
  {
    if IsContainer(node) {
      var closing := [CloseEvent] + rest;
      NestedKids(Kids(node), node.Array?, closing, depth + 1);
      assert closing[1..] == rest;
      assert Stream(node, rest)[1..] == StreamKids(Kids(node), node.Array?, closing);
    } else {
      assert Stream(node, rest)[1..] == rest;
    }
  }

  lemma {:induction false} NestedKids(kids: seq<Field>, inArray: bool, rest: seq<Event>, depth: nat)
    ensures Nested(StreamKids(kids, inArray, rest), depth) <==> Nested(rest, depth)
    decreases SizeFields(kids), 1
  {
    if kids != [] {
      var more := StreamKids(kids[1..], inArray, rest);
      var values := Stream(kids[0].value, more);
      NestedTree(kids[0].value, more, depth);
      NestedKids(kids[1..], inArray, rest, depth);
      if !inArray {
        assert StreamKids(kids, inArray, rest)[1..] == values;
      }
    }
  }

  lemma {:induction false} TokenBytesIsEscapedSize(name: string)
    ensures TokenBytes(name) == |Escape(name)|
  {
    if name != "" {
      TokenBytesIsEscapedSize(name[1..]);
    }
  }

  /** After a value whose checks these are, the dues go on from `q`. */
  ghost predicate DueFirst(p: Pass, events: seq<Event>, checks: seq<Check>, q: Pass, rest: seq<Event>) {
    && Nested(events, |p.frames|) && Nested(rest, |q.frames|) && !q.justOpened
    && Dues(p, events) == DuesOf(checks) + Dues(q, rest)
  }

  lemma OneEvent(p: Pass, e: Event, rest: seq<Event>)
    requires Nested([e] + rest, |p.frames|)
    ensures (e.CloseEvent? ==> p.frames != []) && Nested(rest, |Glide(p, e).frames|)
    ensures Dues(p, [e] + rest) == DuesNow(p, e) + Dues(Glide(p, e), rest)
  {
    assert ([e] + rest)[1..] == rest;
  }

  /** A value whose path is `at`: the pass is charged exactly its checks. */
  lemma {:induction false} DuesOfTree(p: Pass, node: Json, at: string, rest: seq<Event>) returns (q: Pass)
    requires NextKeyBytes(p) == |at| && Nested(rest, |p.frames|)
    ensures DueFirst(p, Stream(node, rest), Checks(node, at, |p.frames| + 1), q, rest)
    ensures q.frames == Advance(p.frames)
    decreases Size(node), 1
  {
    if !IsContainer(node) {
      q := DuesOfLeaf(p, at, rest);
    } else if Kids(node) == [] {
      q := DuesOfEmpty(p, node.Array?, at, rest);
    } else {
      q := DuesOfContainer(p, node, at, rest);
    }
  }

  lemma DuesOfLeaf(p: Pass, at: string, rest: seq<Event>) returns (q: Pass)
    requires NextKeyBytes(p) == |at| && Nested(rest, |p.frames|)
    ensures DueFirst(p, [LeafEvent] + rest, [LeafCheck(at)], q, rest)
    ensures q.frames == Advance(p.frames)
  {
    assert ([LeafEvent] + rest)[1..] == rest;
    OneEvent(p, LeafEvent, rest);
    DuesOfOne(LeafCheck(at));
    q := Glide(p, LeafEvent);
  }

  lemma DuesOfContainer(p: Pass, node: Json, at: string, rest: seq<Event>) returns (q: Pass)
    requires NextKeyBytes(p) == |at| && Nested(rest, |p.frames|) && IsNonEmptyContainer(node)
    ensures DueFirst(p, Stream(node, rest), Checks(node, at, |p.frames| + 1), q, rest)
    ensures q.frames == Advance(p.frames)
    decreases Size(node), 0
  {
    var opening, inArray := DepthCheck(|p.frames| + 1), node.Array?;
    q := DuesOfContents(p, node, at, rest);
    OpenIsDue(p, inArray, StreamKids(Kids(node), inArray, [CloseEvent] + rest));
    DuesInARow([opening], ChecksKids(Kids(node), inArray, at, |p.frames| + 2), Dues(q, rest));
  }

  /** What is inside a container, and its closing. */
  lemma DuesOfContents(p: Pass, node: Json, at: string, rest: seq<Event>) returns (q: Pass)
    requires NextKeyBytes(p) == |at| && Nested(rest, |p.frames|) && IsNonEmptyContainer(node)
    ensures q.frames == Advance(p.frames) && !q.justOpened
    ensures var inside, more := Glide(p, OpenEvent(node.Array?)), StreamKids(Kids(node), node.Array?, [CloseEvent] + rest);
            && Nested(more, |p.frames| + 1)
            && Dues(inside, more) == DuesOf(ChecksKids(Kids(node), node.Array?, at, |p.frames| + 2)) + Dues(q, rest)
    decreases SizeFields(Kids(node)), 3
  {
    NestedClosing(rest, |p.frames|);
    OpenIsInside(p, node, at);
    var inner := DuesOfKids(Glide(p, OpenEvent(node.Array?)), Kids(node), node.Array?, at, [CloseEvent] + rest);
    q := DuesOfClosing(p, inner, rest);
  }

  lemma OpenIsInside(p: Pass, node: Json, at: string)
    requires NextKeyBytes(p) == |at|
    ensures var inside := Glide(p, OpenEvent(node.Array?));
            && Inside(inside, Kids(node), node.Array?, at)
            && |inside.frames| == |p.frames| + 1 && inside.frames[..|p.frames|] == Advance(p.frames)
  {
    KidsAreNumbered(node);
  }

  lemma OpenIsDue(p: Pass, inArray: bool, more: seq<Event>)
    requires Nested(more, |p.frames| + 1)
    ensures Nested([OpenEvent(inArray)] + more, |p.frames|)
    ensures Dues(p, [OpenEvent(inArray)] + more) ==
            DuesOf([DepthCheck(|p.frames| + 1)]) + Dues(Glide(p, OpenEvent(inArray)), more)
  {
    assert ([OpenEvent(inArray)] + more)[1..] == more;
    OneEvent(p, OpenEvent(inArray), more);
    DuesOfOne(DepthCheck(|p.frames| + 1));
  }

  lemma NestedClosing(rest: seq<Event>, depth: nat)
    requires Nested(rest, depth)
    ensures Nested([CloseEvent] + rest, depth + 1)
  {
    assert ([CloseEvent] + rest)[1..] == rest;
  }

  lemma DuesOfOne(c: Check)
    ensures DuesOf([c]) == [DueOf(c)]
  {
  }

  lemma DuesInARow(a: seq<Check>, b: seq<Check>, rest: seq<Due>)
    ensures DuesOf(a) + (DuesOf(b) + rest) == DuesOf(a + b) + rest
  {
  }

  /** An empty container is charged as a leaf when it is closed. */
  lemma DuesOfEmpty(p: Pass, inArray: bool, at: string, rest: seq<Event>) returns (q: Pass)
    requires NextKeyBytes(p) == |at| && Nested(rest, |p.frames|)
    ensures DueFirst(p, [OpenEvent(inArray)] + ([CloseEvent] + rest), [DepthCheck(|p.frames| + 1), LeafCheck(at)], q, rest)
    ensures q.frames == Advance(p.frames)
  {
    var inside, opening := Glide(p, OpenEvent(inArray)), DepthCheck(|p.frames| + 1);
    NestedClosing(rest, |p.frames|);
    OpenIsDue(p, inArray, [CloseEvent] + rest);
    OneEvent(inside, CloseEvent, rest);
    q := Glide(inside, CloseEvent);
    DuesOfOne(LeafCheck(at));
    DuesInARow([opening], [LeafCheck(at)], Dues(q, rest));
    assert [opening] + [LeafCheck(at)] == [opening, LeafCheck(at)];
  }

  /** Closing a container that holds something charges nothing and brings the frames back. */
  lemma DuesOfClosing(p: Pass, inner: Pass, rest: seq<Event>) returns (q: Pass)
    requires |inner.frames| == |p.frames| + 1 && inner.frames[..|p.frames|] == Advance(p.frames)
    requires !inner.justOpened && Nested(rest, |p.frames|)
    ensures q.frames == Advance(p.frames) && !q.justOpened
    ensures Nested([CloseEvent] + rest, |inner.frames|) && Dues(inner, [CloseEvent] + rest) == Dues(q, rest)
  {
    NestedClosing(rest, |p.frames|);
    OneEvent(inner, CloseEvent, rest);
    q := Glide(inner, CloseEvent);
  }

  lemma KidsAreNumbered(node: Json)
    ensures node.Array? ==> forall k :: 0 <= k < |Kids(node)| ==> Kids(node)[k].key == Decimal(k)
  {
    if node.Array? {
      forall k | 0 <= k < |Kids(node)|
        ensures Kids(node)[k].key == Decimal(k)
      {
        IndexedAt(node.elems, 0, k);
      }
    }
  }

  /** The children still to come belong to the container on top, whose path is `at`. */
  ghost predicate Inside(p: Pass, kids: seq<Field>, inArray: bool, at: string) {
    && p.frames != []
    && var top := p.frames[|p.frames| - 1];
    && top.isArray == inArray && top.prefixBytes == |at|
    && (inArray ==> forall k :: 0 <= k < |kids| ==> kids[k].key == Decimal(top.nextIndex + k))
  }

  /** The pass just before the value of the first child: in an object, its key has been read. */
  function Keyed(p: Pass, kid: Field, inArray: bool): Pass {
    if inArray then p else p.(pendingTokenBytes := TokenBytes(kid.key), justOpened := false)
  }

  lemma KeyedCharges(p: Pass, kids: seq<Field>, inArray: bool, at: string)
    requires Inside(p, kids, inArray, at) && kids != []
    ensures NextKeyBytes(Keyed(p, kids[0], inArray)) == |ChildPath(at, kids[0].key)|
  {
    TokenBytesIsEscapedSize(kids[0].key);
    if inArray {
      assert kids[0].key == Decimal(p.frames[|p.frames| - 1].nextIndex + 0);
      DecimalIsCanonical(p.frames[|p.frames| - 1].nextIndex);
      EscapeDigits(kids[0].key);
    }
  }

  /** The check of a child's key: array elements have none. */
  function KeyChecks(kid: Field, inArray: bool): seq<Check> { if inArray then [] else [KeyCheck(kid.key)] }

  lemma DuesOfKey(p: Pass, kid: Field, inArray: bool, values: seq<Event>)
    requires Nested(values, |p.frames|)
    ensures var all := if inArray then values else [KeyEvent(kid.key)] + values;
            && Nested(all, |p.frames|)
            && Dues(p, all) == DuesOf(KeyChecks(kid, inArray)) + Dues(Keyed(p, kid, inArray), values)
  {
    if inArray {
      assert [] + Dues(p, values) == Dues(p, values);
    } else {
      assert ([KeyEvent(kid.key)] + values)[1..] == values;
      OneEvent(p, KeyEvent(kid.key), values);
      assert DuesOf([KeyCheck(kid.key)]) == [KeyDue('\0' in kid.key)];
    }
  }

  lemma StillInside(p: Pass, kids: seq<Field>, inArray: bool, at: string, q: Pass)
    requires Inside(p, kids, inArray, at) && kids != [] && q.frames == Advance(p.frames)
    ensures Inside(q, kids[1..], inArray, at) && |q.frames| == |p.frames|
    ensures q.frames[..|p.frames| - 1] == p.frames[..|p.frames| - 1]
  {
    var top, top2 := p.frames[|p.frames| - 1], q.frames[|p.frames| - 1];
    if inArray {
      forall k | 0 <= k < |kids[1..]|
        ensures kids[1..][k].key == Decimal(top2.nextIndex + k)
      {
        assert kids[k + 1].key == Decimal(top.nextIndex + (k + 1));
      }
    }
  }

  lemma {:induction false} DuesOfKids(p: Pass, kids: seq<Field>, inArray: bool, at: string, rest: seq<Event>)
    returns (q: Pass)
    requires Inside(p, kids, inArray, at) && (kids == [] ==> !p.justOpened) && Nested(rest, |p.frames|)
    ensures DueFirst(p, StreamKids(kids, inArray, rest), ChecksKids(kids, inArray, at, |p.frames| + 1), q, rest)
    ensures |q.frames| == |p.frames| && q.frames[..|p.frames| - 1] == p.frames[..|p.frames| - 1]
    decreases SizeFields(kids), 2
  {
    q := p;
    if kids == [] {
      assert DuesOf([]) + Dues(p, rest) == Dues(p, rest);
    } else {
      var kid, path, keyed := kids[0], ChildPath(at, kids[0].key), Keyed(p, kids[0], inArray);
      var more := StreamKids(kids[1..], inArray, rest);
      NestedKids(kids[1..], inArray, rest, |p.frames|);
      KeyedCharges(p, kids, inArray, at);
      var next := DuesOfTree(keyed, kid.value, path, more);
      StillInside(p, kids, inArray, at, next);
      q := DuesOfKids(next, kids[1..], inArray, at, rest);
      DuesOfKey(p, kid, inArray, Stream(kid.value, more));
      DuesOfFirstKid(kids, inArray, at, |p.frames| + 1, Dues(q, rest));
    }
  }

  /** The checks of the first child and of the others, in a row. */
  lemma DuesOfFirstKid(kids: seq<Field>, inArray: bool, at: string, depth: nat, rest: seq<Due>)
    requires kids != []
    ensures DuesOf(KeyChecks(kids[0], inArray)) +
            (DuesOf(Checks(kids[0].value, ChildPath(at, kids[0].key), depth)) +
             (DuesOf(ChecksKids(kids[1..], inArray, at, depth)) + rest)) ==
            DuesOf(ChecksKids(kids, inArray, at, depth)) + rest
  {
    var first, others := Checks(kids[0].value, ChildPath(at, kids[0].key), depth), ChecksKids(kids[1..], inArray, at, depth);
    DuesInARow(first, others, rest);
    DuesInARow(KeyChecks(kids[0], inArray), first + others, rest);
  }

  /** One value, whatever comes before and after it: the pass fails or goes on as an audit of the value's keys,
      depths and leaves does, with the audited totals. */
  lemma FeedTree(p: Pass, node: Json, at: string, rest: seq<Event>) returns (q: Pass)
    requires NextKeyBytes(p) == |at| && Nested(rest, |p.frames|)
    ensures q.frames == Advance(p.frames) && !q.justOpened
    ensures Nested(Stream(node, rest), |p.frames|)
    ensures var audit := AuditAll(Checks(node, at, |p.frames| + 1), p.entryCount, p.keyTotal);
            Matches(Feed(p, Stream(node, rest)),
                    if audit.Failed? then audit else AuditDues(Dues(q, rest), audit.entries, audit.bytes))
  {
    var checks := Checks(node, at, |p.frames| + 1);
    q := DuesOfTree(p, node, at, rest);
    FeedIsAudit(p, Stream(node, rest));
    AuditInARow(DuesOf(checks), Dues(q, rest), p.entryCount, p.keyTotal);
    AuditAllIsDues(checks, p.entryCount, p.keyTotal);
  }

  // ------------------------------------------------------------ the first violation

  function LeafKeys(checks: seq<Check>): seq<string> {
    if checks == [] then []
    else if checks[0].LeafCheck? then [checks[0].key] + LeafKeys(checks[1..])
    else LeafKeys(checks[1..])
  }

  function KeyBytes(keys: seq<string>): nat {
    if keys == [] then 0 else |keys[0]| + KeyBytes(keys[1..])
  }

  /** What is wrong at check `i`, given the entries and key bytes of everything before it in the text. */
  function Violation(checks: seq<Check>, i: nat, entries: nat, bytes: nat): Audit
    requires i < |checks|
  {
    AuditOne(checks[i], entries + |LeafKeys(checks[..i])|, bytes + KeyBytes(LeafKeys(checks[..i])))
  }

  /** Check `i` is the first that is violated, and it is violated with this status. */
  ghost predicate FirstViolation(checks: seq<Check>, i: nat, entries: nat, bytes: nat, status: Status) {
    && i < |checks|
    && Violation(checks, i, entries, bytes) == Failed(status)
    && forall j :: 0 <= j < i ==> Violation(checks, j, entries, bytes).Passed?
  }

  lemma ViolationShifts(checks: seq<Check>, i: nat, entries: nat, bytes: nat)
    requires 0 < i < |checks| && AuditOne(checks[0], entries, bytes).Passed?
    ensures var one := AuditOne(checks[0], entries, bytes);
            Violation(checks, i, entries, bytes) == Violation(checks[1..], i - 1, one.entries, one.bytes)
  {
    assert checks[..i][1..] == checks[1..][..i - 1];
    assert checks[..i][0] == checks[0];
  }

  lemma {:induction false} AuditStopsAtFirst(checks: seq<Check>, entries: nat, bytes: nat) returns (i: nat)
    ensures AuditAll(checks, entries, bytes).Failed? ==>
              FirstViolation(checks, i, entries, bytes, AuditAll(checks, entries, bytes).status)
    ensures AuditAll(checks, entries, bytes).Passed? ==>
              forall j :: 0 <= j < |checks| ==> Violation(checks, j, entries, bytes).Passed?
  {
    i := 0;
    if checks != [] {
      assert checks[..0] == [];
      var one := AuditOne(checks[0], entries, bytes);
      assert Violation(checks, 0, entries, bytes) == one;
      if one.Passed? {
        var k := AuditStopsAtFirst(checks[1..], one.entries, one.bytes);
        i := k + 1;
        forall j | 0 < j < |checks|
          ensures Violation(checks, j, entries, bytes) == Violation(checks[1..], j - 1, one.entries, one.bytes)
        {
          ViolationShifts(checks, j, entries, bytes);
        }
      }
    }
  }

  /** A check that says nothing about totals. */
  predicate Lawful(c: Check) {
    match c
    case KeyCheck(name) => '\0' !in name
    case DepthCheck(depth) => depth <= MAX_DEPTH
    case LeafCheck(_) => true
  }

  predicate AllLawful(checks: seq<Check>) {
    checks == [] || (Lawful(checks[0]) && AllLawful(checks[1..]))
  }

  /** An audit passes exactly when every key and depth is lawful and the final totals fit. */
  lemma {:induction false} AuditIffTotalsFit(checks: seq<Check>, entries: nat, bytes: nat)
    requires entries <= MAX_ENTRIES && bytes <= MAX_KEY_BYTES
    ensures AuditAll(checks, entries, bytes).Passed? <==>
              AllLawful(checks) && entries + |LeafKeys(checks)| <= MAX_ENTRIES
              && bytes + KeyBytes(LeafKeys(checks)) <= MAX_KEY_BYTES
    ensures AuditAll(checks, entries, bytes).Passed? ==>
              AuditAll(checks, entries, bytes) == Passed(entries + |LeafKeys(checks)|, bytes + KeyBytes(LeafKeys(checks)))
  {
    if checks != [] {
      var one := AuditOne(checks[0], entries, bytes);
      if one.Passed? {
        AuditIffTotalsFit(checks[1..], one.entries, one.bytes);
      }
      if checks[0].LeafCheck? {
        assert LeafKeys(checks)[1..] == LeafKeys(checks[1..]);
      }
    }
  }

  // ------------------------------------------------------------ the checks, told from the tree

  function Keys(entries: seq<FlatEntry>): seq<string> {
    if entries == [] then [] else [entries[0].key] + Keys(entries[1..])
  }

  lemma {:induction false} KeysConcat(a: seq<FlatEntry>, b: seq<FlatEntry>)
    ensures Keys(a + b) == Keys(a) + Keys(b)
  {
    if a == [] {
      assert a + b == b;
    } else {
      KeysConcat(a[1..], b);
      assert (a + b)[1..] == a[1..] + b;
    }
  }

  lemma {:induction false} KeysSize(entries: seq<FlatEntry>)
    ensures |Keys(entries)| == |entries|
  {
    if entries != [] {
      KeysSize(entries[1..]);
    }
  }

  lemma {:induction false} ChecksConcat(a: seq<Check>, b: seq<Check>)
    ensures LeafKeys(a + b) == LeafKeys(a) + LeafKeys(b)
    ensures AllLawful(a + b) <==> AllLawful(a) && AllLawful(b)
  {
    if a == [] {
      assert a + b == b;
    } else {
      ChecksConcat(a[1..], b);
      assert (a + b)[1..] == a[1..] + b;
    }
  }

  /** The leaf checks carry exactly the keys of the flat list, in order. */
  lemma {:induction false} LeafChecksAreKeys(node: Json, at: string, depth: nat)
    ensures LeafKeys(Checks(node, at, depth)) == Keys(Flatten(node, at))
    decreases Size(node), 0
  {
    var checks := Checks(node, at, depth);
    if IsNonEmptyContainer(node) {
      LeafChecksOfKids(Kids(node), node.Array?, at, depth + 1);
      assert checks[1..] == ChecksKids(Kids(node), node.Array?, at, depth + 1);
    } else {
      var entry := Flatten(node, at);
      assert entry[1..] == [] && Keys(entry[1..]) == [];
      assert [LeafCheck(at)][1..] == [] && LeafKeys([LeafCheck(at)]) == [at];
      if IsContainer(node) {
        assert checks[1..] == [LeafCheck(at)];
      }
    }
  }

  lemma {:induction false} LeafChecksOfKids(kids: seq<Field>, inArray: bool, at: string, depth: nat)
    ensures LeafKeys(ChecksKids(kids, inArray, at, depth)) == Keys(FlattenKids(kids, at))
    decreases SizeFields(kids), 1
  {
    if kids != [] {
      var path := ChildPath(at, kids[0].key);
      var checks, others := Checks(kids[0].value, path, depth), ChecksKids(kids[1..], inArray, at, depth);
      LeafChecksAreKeys(kids[0].value, path, depth);
      LeafChecksOfKids(kids[1..], inArray, at, depth);
      ChecksConcat(checks, others);
      KeysConcat(Flatten(kids[0].value, path), FlattenKids(kids[1..], at));
      var whole := ChecksKids(kids, inArray, at, depth);
      if inArray {
        assert whole == checks + others;
      } else {
        assert whole[1..] == checks + others;
      }
    }
  }

  /** Nesting: a root container is at depth one. */
  function Depth(node: Json): nat
    decreases Size(node), 0
  {
    if IsContainer(node) then 1 + DepthKids(Kids(node)) else 0
  }

  function DepthKids(kids: seq<Field>): nat
    decreases SizeFields(kids), 1
  {
    if kids == [] then 0
    else if Depth(kids[0].value) > DepthKids(kids[1..]) then Depth(kids[0].value) else DepthKids(kids[1..])
  }

  predicate NoNulKeys(node: Json)
    decreases Size(node), 0
  {
    NoNulKeysIn(Kids(node), node.Array?)
  }

  predicate NoNulKeysIn(kids: seq<Field>, inArray: bool)
    decreases SizeFields(kids), 1
  {
    kids == [] ||
    ((inArray || '\0' !in kids[0].key) && NoNulKeys(kids[0].value) && NoNulKeysIn(kids[1..], inArray))
  }

  lemma {:induction false} ChecksAreLawful(node: Json, at: string, depth: nat)
    requires depth >= 1
    ensures AllLawful(Checks(node, at, depth)) <==>
              NoNulKeys(node) && (Depth(node) == 0 || depth - 1 + Depth(node) <= MAX_DEPTH)
    decreases Size(node), 0
  {
    var checks := Checks(node, at, depth);
    if IsNonEmptyContainer(node) {
      ChecksOfKidsAreLawful(Kids(node), node.Array?, at, depth + 1);
      assert checks[1..] == ChecksKids(Kids(node), node.Array?, at, depth + 1);
    } else {
      assert AllLawful([LeafCheck(at)]);
      if IsContainer(node) {
        assert checks[1..] == [LeafCheck(at)];
      }
    }
  }

  lemma {:induction false} ChecksOfKidsAreLawful(kids: seq<Field>, inArray: bool, at: string, depth: nat)
    requires depth >= 1
    ensures AllLawful(ChecksKids(kids, inArray, at, depth)) <==>
              NoNulKeysIn(kids, inArray) && (DepthKids(kids) == 0 || depth - 1 + DepthKids(kids) <= MAX_DEPTH)
    decreases SizeFields(kids), 1
  {
    if kids != [] {
      var path := ChildPath(at, kids[0].key);
      var checks, others := Checks(kids[0].value, path, depth), ChecksKids(kids[1..], inArray, at, depth);
      ChecksAreLawful(kids[0].value, path, depth);
      ChecksOfKidsAreLawful(kids[1..], inArray, at, depth);
      ChecksConcat(checks, others);
      var whole := ChecksKids(kids, inArray, at, depth);
      if inArray {
        assert whole == checks + others;
      } else {
        assert whole[1..] == checks + others;
      }
    }
  }

  // ------------------------------------------------------------ the theorems

  lemma EventsAreNested(node: Json)
    ensures Nested(Events(node), 0)
  {
    NestedTree(node, [], 0);
  }

  /** The limit pass, over all of a tree's events. */
  function Verdict(node: Json): Result<Pass> {
    EventsAreNested(node);
    Feed(FRESH, Events(node))
  }

  /** A tree's events are charged its checks. */
  lemma DuesOfEvents(p: Pass, node: Json, at: string)
    requires p.frames == [] && NextKeyBytes(p) == |at|
    ensures Nested(Events(node), |p.frames|) && Dues(p, Events(node)) == DuesOf(Checks(node, at, |p.frames| + 1))
  {
    var q := DuesOfTree(p, node, at, []);
    assert DuesOf(Checks(node, at, |p.frames| + 1)) + [] == DuesOf(Checks(node, at, |p.frames| + 1));
  }

  lemma VerdictIsAudit(node: Json)
    ensures Matches(Verdict(node), AuditAll(Checks(node, "", 1), 0, 0))
  {
    var p := FRESH;
    DuesOfEvents(p, node, "");
    FeedIsAudit(p, Events(node));
    AuditAllIsDues(Checks(node, "", 1), 0, 0);
    assert |p.frames| + 1 == 1 && p.entryCount == 0 && p.keyTotal == 0;
  }

  /** The pass accepts a text exactly when its tree is not too deep, no key holds a NUL, and the flat list
      would be neither too long nor too large; its two counters are then exact. */
  lemma LimitPassAccepts(node: Json)
    ensures Verdict(node).Success? <==>
              && Depth(node) <= MAX_DEPTH && NoNulKeys(node)
              && |Flatten(node, "")| <= MAX_ENTRIES && KeyBytes(Keys(Flatten(node, ""))) <= MAX_KEY_BYTES
    ensures Verdict(node).Success? ==>
              && Verdict(node).value.entryCount == |Flatten(node, "")|
              && Verdict(node).value.keyTotal == KeyBytes(Keys(Flatten(node, "")))
  {
    VerdictIsAudit(node);
    AuditIffTotalsFit(Checks(node, "", 1), 0, 0);
    LeafChecksAreKeys(node, "", 1);
    KeysSize(Flatten(node, ""));
    ChecksAreLawful(node, "", 1);
  }

  lemma AuditFailsIff(checks: seq<Check>, entries: nat, bytes: nat, status: Status)
    ensures AuditAll(checks, entries, bytes) == Failed(status) <==>
            exists i :: FirstViolation(checks, i, entries, bytes, status)
  {
    var audit := AuditAll(checks, entries, bytes);
    var k := AuditStopsAtFirst(checks, entries, bytes);
    if exists i :: FirstViolation(checks, i, entries, bytes, status) {
      var i :| FirstViolation(checks, i, entries, bytes, status);
      assert audit.Failed?;
      assert FirstViolation(checks, k, entries, bytes, audit.status);
      assert i == k;
    }
  }

  /** A rejected text is rejected for its first violation in text order. */
  lemma LimitPassReportsFirst(node: Json, status: Status)
    ensures Verdict(node) == Failure(status) <==>
            exists i :: FirstViolation(Checks(node, "", 1), i, 0, 0, status)
  {
    VerdictIsAudit(node);
    MatchesFailure(Verdict(node), AuditAll(Checks(node, "", 1), 0, 0), status);
    AuditFailsIff(Checks(node, "", 1), 0, 0, status);
  }

  // ------------------------------------------------------------ each limit and its status

  ghost predicate KeysLawful(checks: seq<Check>) {
    forall c :: c in checks && c.KeyCheck? ==> '\0' !in c.name
  }

  ghost predicate DepthsLawful(checks: seq<Check>) {
    forall c :: c in checks && c.DepthCheck? ==> c.depth <= MAX_DEPTH
  }

  lemma {:induction false} KeyChecksAreLawful(node: Json, at: string, depth: nat)
    requires NoNulKeys(node)
    ensures KeysLawful(Checks(node, at, depth))
    decreases Size(node), 0
  {
    if IsNonEmptyContainer(node) {
      KeyChecksOfKidsAreLawful(Kids(node), node.Array?, at, depth + 1);
    }
  }

  lemma {:induction false} KeyChecksOfKidsAreLawful(kids: seq<Field>, inArray: bool, at: string, depth: nat)
    requires NoNulKeysIn(kids, inArray)
    ensures KeysLawful(ChecksKids(kids, inArray, at, depth))
    decreases SizeFields(kids), 1
  {
    if kids != [] {
      KeyChecksAreLawful(kids[0].value, ChildPath(at, kids[0].key), depth);
      KeyChecksOfKidsAreLawful(kids[1..], inArray, at, depth);
    }
  }

  lemma {:induction false} DepthChecksAreLawful(node: Json, at: string, depth: nat)
    requires Depth(node) == 0 || depth + Depth(node) <= MAX_DEPTH + 1
    ensures DepthsLawful(Checks(node, at, depth))
    decreases Size(node), 0
  {
    if IsNonEmptyContainer(node) {
      DepthChecksOfKidsAreLawful(Kids(node), node.Array?, at, depth + 1);
    }
  }

  lemma {:induction false} DepthChecksOfKidsAreLawful(kids: seq<Field>, inArray: bool, at: string, depth: nat)
    requires DepthKids(kids) == 0 || depth + DepthKids(kids) <= MAX_DEPTH + 1
    ensures DepthsLawful(ChecksKids(kids, inArray, at, depth))
    decreases SizeFields(kids), 1
  {
    if kids != [] {
      DepthChecksAreLawful(kids[0].value, ChildPath(at, kids[0].key), depth);
      DepthChecksOfKidsAreLawful(kids[1..], inArray, at, depth);
    }
  }

  lemma {:induction false} KeyBytesConcat(a: seq<string>, b: seq<string>)
    ensures KeyBytes(a + b) == KeyBytes(a) + KeyBytes(b)
  {
    if a == [] {
      assert a + b == b;
    } else {
      assert (a + b)[1..] == a[1..] + b;
      KeyBytesConcat(a[1..], b);
    }
  }

  /** The leaves up to and with a leaf check are among all leaves. */
  lemma TotalsGrow(checks: seq<Check>, i: nat)
    requires i < |checks| && checks[i].LeafCheck?
    ensures |LeafKeys(checks[..i])| + 1 <= |LeafKeys(checks)|
    ensures KeyBytes(LeafKeys(checks[..i])) + |checks[i].key| <= KeyBytes(LeafKeys(checks))
  {
    var front, back := checks[..i], checks[i..];
    assert checks == front + back && back[0] == checks[i];
    ChecksConcat(front, back);
    KeyBytesConcat(LeafKeys(front), LeafKeys(back));
    assert LeafKeys(back) == [checks[i].key] + LeafKeys(back[1..]);
    KeyBytesConcat([checks[i].key], LeafKeys(back[1..]));
    assert KeyBytes([checks[i].key]) == |checks[i].key| + KeyBytes([checks[i].key][1..]);
  }

  /** What a violation says, in the documented numbers. */
  lemma ViolationMeans(checks: seq<Check>, i: nat, status: Status)
    requires i < |checks| && Violation(checks, i, 0, 0) == Failed(status)
    ensures match checks[i]
            case KeyCheck(name) => status == ParseError && '\0' in name
            case DepthCheck(depth) => status == NestingTooDeep && depth > 64
            case LeafCheck(key) =>
              || (status == TooManyEntries && |LeafKeys(checks)| > 10000)
              || (status == KeyTextTooLarge && KeyBytes(LeafKeys(checks)) > 4194304)
  {
    if checks[i].LeafCheck? {
      TotalsGrow(checks, i);
    }
  }

  /** The violation that a rejection is for. */
  lemma RejectingCheck(node: Json) returns (i: nat)
    requires Verdict(node).Failure?
    ensures i < |Checks(node, "", 1)| && Violation(Checks(node, "", 1), i, 0, 0) == Failed(Verdict(node).error)
  {
    VerdictIsAudit(node);
    i := AuditStopsAtFirst(Checks(node, "", 1), 0, 0);
  }

  /** A status is reported only when its own limit is broken. */
  lemma RejectedMeans(node: Json)
    requires Verdict(node).Failure?
    ensures match Verdict(node).error
            case ParseError => !NoNulKeys(node)
            case NestingTooDeep => Depth(node) > 64
            case TooManyEntries => |Flatten(node, "")| > 10000
            case KeyTextTooLarge => KeyBytes(Keys(Flatten(node, ""))) > 4194304
            case _ => false
  {
    var checks := Checks(node, "", 1);
    var i := RejectingCheck(node);
    ViolationMeans(checks, i, Verdict(node).error);
    LeafChecksAreKeys(node, "", 1);
    KeysSize(Flatten(node, ""));
    assert checks[i] in checks;
    if checks[i].KeyCheck? && NoNulKeys(node) {
      KeyChecksAreLawful(node, "", 1);
      assert false;
    }
    if checks[i].DepthCheck? && Depth(node) <= 64 {
      DepthChecksAreLawful(node, "", 1);
      assert false;
    }
  }

  /** A tree that breaks one limit only is rejected with that limit's status. */
  lemma OnlyLimitBroken(node: Json)
    ensures var deep, nul := Depth(node) > 64, !NoNulKeys(node);
            var many, large := |Flatten(node, "")| > 10000, KeyBytes(Keys(Flatten(node, ""))) > 4194304;
            && (deep && !nul && !many && !large ==> Verdict(node) == Failure(NestingTooDeep))
            && (!deep && nul && !many && !large ==> Verdict(node) == Failure(ParseError))
            && (!deep && !nul && many && !large ==> Verdict(node) == Failure(TooManyEntries))
            && (!deep && !nul && !many && large ==> Verdict(node) == Failure(KeyTextTooLarge))
  {
    LimitPassAccepts(node);
    if Verdict(node).Failure? {
      RejectedMeans(node);
    }
  }

  // ------------------------------------------------------------ texts that break off

  lemma {:induction false} StreamHasNoBinary(node: Json, rest: seq<Event>)
    requires NoBinary(rest)
    ensures NoBinary(Stream(node, rest))
    decreases Size(node), 0
  {
    if IsContainer(node) {
      StreamKidsHaveNoBinary(Kids(node), node.Array?, [CloseEvent] + rest);
    }
  }

  lemma {:induction false} StreamKidsHaveNoBinary(kids: seq<Field>, inArray: bool, rest: seq<Event>)
    requires NoBinary(rest)
    ensures NoBinary(StreamKids(kids, inArray, rest))
    decreases SizeFields(kids), 1
  {
    if kids != [] {
      StreamKidsHaveNoBinary(kids[1..], inArray, rest);
      StreamHasNoBinary(kids[0].value, StreamKids(kids[1..], inArray, rest));
    }
  }

  /** The front of a tree's events is charged the front of the tree's checks. */
  lemma DuesOfBrokenOff(p: Pass, node: Json, at: string, front: seq<Event>, rest: seq<Event>)
    requires p.frames == [] && !p.justOpened && NextKeyBytes(p) == |at| && Events(node) == front + rest
    ensures Nested(front, |p.frames|)
    ensures var checks, n := Checks(node, at, |p.frames| + 1), CheckCount(front, false);
            n <= |checks| && Dues(p, front) == DuesOf(checks[..n])
  {
    DuesOfEvents(p, node, at);
    NestedFront(front, rest, |p.frames|);
    DuesOfFront(p, front, rest);
    StreamHasNoBinary(node, []);
    assert forall e :: e in front ==> e in front + rest;
    DuesCount(p, front);
    var checks, n := Checks(node, at, |p.frames| + 1), CheckCount(front, false);
    assert DuesOf(checks[..n]) == DuesOf(checks)[..n];
  }

  lemma FirstViolationInFront(checks: seq<Check>, n: nat, i: nat, entries: nat, bytes: nat, status: Status)
    requires i < n <= |checks|
    ensures FirstViolation(checks[..n], i, entries, bytes, status) <==> FirstViolation(checks, i, entries, bytes, status)
  {
    forall j | 0 <= j <= i
      ensures Violation(checks[..n], j, entries, bytes) == Violation(checks, j, entries, bytes)
    {
      assert checks[..n][..j] == checks[..j];
    }
  }

  lemma FirstViolationWithin(checks: seq<Check>, n: nat, entries: nat, bytes: nat, status: Status)
    requires n <= |checks|
    ensures (exists i :: FirstViolation(checks[..n], i, entries, bytes, status)) <==>
            (exists i: nat :: i < n && FirstViolation(checks, i, entries, bytes, status))
  {
    forall i: nat | i < n
      ensures FirstViolation(checks[..n], i, entries, bytes, status) <==> FirstViolation(checks, i, entries, bytes, status)
    {
      FirstViolationInFront(checks, n, i, entries, bytes, status);
    }
  }

  /** The first violation in a tree's text lies among the first `n` checks, and has this status. */
  ghost predicate ViolatedWithin(node: Json, n: nat, status: Status) {
    exists i: nat :: i < n && FirstViolation(Checks(node, "", 1), i, 0, 0, status)
  }

  /** A text that breaks off is rejected for the first violation before the break; without one, no limit is met. */
  lemma BrokenOffReportsFirst(node: Json, front: seq<Event>, rest: seq<Event>, status: Status)
    requires Events(node) == front + rest
    ensures Nested(front, 0)
    ensures Feed(FRESH, front) == Failure(status) <==> ViolatedWithin(node, CheckCount(front, false), status)
  {
    var checks, n := Checks(node, "", 1), CheckCount(front, false);
    FeedBrokenOff(FRESH, node, "", front, rest);
    MatchesFailure(Feed(FRESH, front), AuditAll(checks[..n], 0, 0), status);
    AuditFailsIff(checks[..n], 0, 0, status);
    FirstViolationWithin(checks, n, 0, 0, status);
  }

  lemma FeedBrokenOff(p: Pass, node: Json, at: string, front: seq<Event>, rest: seq<Event>)
    requires p.frames == [] && !p.justOpened && NextKeyBytes(p) == |at| && Events(node) == front + rest
    ensures Nested(front, |p.frames|)
    ensures var checks, n := Checks(node, at, |p.frames| + 1), CheckCount(front, false);
            n <= |checks| && Matches(Feed(p, front), AuditAll(checks[..n], p.entryCount, p.keyTotal))
  {
    DuesOfBrokenOff(p, node, at, front, rest);
    FeedIsAudit(p, front);
    AuditAllIsDues(Checks(node, at, |p.frames| + 1)[..CheckCount(front, false)], p.entryCount, p.keyTotal);
  }

  lemma MatchesFailure(got: Result<Pass>, audit: Audit, status: Status)
    requires Matches(got, audit)
    ensures got == Failure(status) <==> audit == Failed(status)
  {
  }
}
