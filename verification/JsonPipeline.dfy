/** FlattenJson of src/mapping/json-flatten.cpp from end to end: size and byte checks, quote conversion, limit
    pass, document, flat list. The JSON parser itself is a parameter. */
module JsonPipeline {
  import opened Statuses
  import opened JsonQuotes
  import opened JsonTree
  import opened JsonPath
  import opened JsonFlatten
  import opened JsonIndex
  import opened JsonLimits
  import opened JsonCharges
  import opened JsonVerdict
  import opened JsonDuplicates
  import opened JsonStored
  import opened JsonReading

  const MAX_INPUT := 1048576

  type Prefix = events: seq<Event> | Nested(events, 0)

  /** What the parser finds in a text: one tree, or the events before a syntax error. */
  datatype Parsed = Tree(raw: Json) | Malformed(events: Prefix)

  function Reported(parsed: Parsed): Prefix {
    match parsed
    case Tree(raw) =>
      EventsAreNested(raw);
      Events(raw)
    case Malformed(events) => events
  }

  datatype FlattenResult = FlattenResult(document: Json, entries: seq<FlatEntry>)

  /** The text that reaches the parser. */
  function Prepared(text: string): Result<string> {
    if |text| > MAX_INPUT then Failure(DocumentTooLarge)
    else if text == "" || '\0' in text then Failure(ParseError)
    else Success(Convert(Outside, text))
  }

  /** A limit reached before a syntax error decides the status. */
  function Judged(parsed: Parsed): Result<Pass> {
    var pass := Feed(FRESH, Reported(parsed));
    if pass.Success? && parsed.Malformed? then Failure(ParseError) else pass
  }

  function FlattenText(text: string, parse: string -> Parsed): Result<FlattenResult> {
    var prepared := Prepared(text);
    if prepared.Failure? then Failure(prepared.error)
    else
      var parsed := parse(prepared.value);
      var pass := Judged(parsed);
      if pass.Failure? then Failure(pass.error)
      else
        var document := Collapse(parsed.raw);
        Success(FlattenResult(document, Flatten(document, "")))
  }

  /** The document that the parser builds after its limit pass is the collapsed tree of the same text. */
  method FlattenJson(text: string, parse: string -> Parsed) returns (r: Result<FlattenResult>)
    ensures r == FlattenText(text, parse)
  {
    if |text| > MAX_INPUT {
      return Failure(DocumentTooLarge);
    }
    if text == "" {
      return Failure(ParseError);
    }
    if '\0' in text {
      return Failure(ParseError);
    }
    var converted := text;
    if '\'' in text {
      var quoteStatus;
      quoteStatus, converted := ConvertApostropheStrings(text);
      if quoteStatus != Ok {
        return Failure(quoteStatus);
      }
    } else {
      NoApostropheNoChange(Outside, text);
    }
    var parsed := parse(converted);
    var sax := new LimitCheckingSax();
    var ok := sax.Scan(Reported(parsed));
    if !ok || parsed.Malformed? {
      return Failure(sax.failure);
    }
    var document := Collapse(parsed.raw);
    var status, entries := FlattenDocument(document);
    if status != Ok {
      return Failure(status);
    }
    return Success(FlattenResult(document, entries));
  }

  // ------------------------------------------------------------ what acceptance promises

  /** A result whose two halves agree: every path reads from the document what the list says, and the other
      way round, under keys that differ, and the list shows the document's leaves in their order. */
  ghost predicate Sound(r: FlattenResult) {
    && Unique(r.document) && Indexable(r.document)
    && |r.entries| <= MAX_ENTRIES && KeyBytes(Keys(r.entries)) <= MAX_KEY_BYTES && NulFree(r.entries)
    && (forall path, text, kind ::
          Lookup(r.document, View(path)) == Success(LeafText(text, kind)) <==> FlatEntry(path, text, kind) in r.entries)
    && (forall i, j :: 0 <= i < j < |r.entries| ==> r.entries[i].key != r.entries[j].key)
    && ShowsAll(r.entries, Leaves(r.document))
  }

  lemma FlatListIsSound(document: Json)
    requires Unique(document) && Indexable(document) && WithinLimits(document)
    ensures Sound(FlattenResult(document, Flatten(document, "")))
  {
    var entries := Flatten(document, "");
    forall path, text, kind
      ensures Lookup(document, View(path)) == Success(LeafText(text, kind)) <==> FlatEntry(path, text, kind) in entries
    {
      IndexAgreesWithTree(document, path, text, kind);
    }
    forall i, j | 0 <= i < j < |entries|
      ensures entries[i].key != entries[j].key
    {
      EntryKeysDiffer(document, i, j);
    }
    EntriesShowLeaves(document);
  }

  /** Whatever the text and whatever the parser, an accepted text gives a sound result. */
  lemma AcceptedTextIsSound(text: string, parse: string -> Parsed)
    requires FlattenText(text, parse).Success?
    ensures Sound(FlattenText(text, parse).value)
  {
    var raw := parse(Prepared(text).value).raw;
    AcceptedIsSound(raw);
    FlatListIsSound(Collapse(raw));
  }

  /** What is accepted: a text that is not empty, holds no NUL, is at most one MiB long and parses to a tree
      within the limits. */
  lemma AcceptedIff(text: string, parse: string -> Parsed)
    ensures FlattenText(text, parse).Success? <==>
              && text != "" && '\0' !in text && |text| <= 1048576
              && parse(Convert(Outside, text)).Tree? && MeetsLimits(parse(Convert(Outside, text)).raw)
  {
    var parsed := parse(Convert(Outside, text));
    if parsed.Tree? {
      LimitPassIff(parsed.raw);
    }
  }

  /** Every path reads from the stored document what the tree as written holds there: the last field of each
      key, the element of each index. */
  lemma AcceptedTextIsRead(text: string, parse: string -> Parsed, raw: Json, r: FlattenResult, path: View)
    requires FlattenText(text, parse) == Success(r) && parse(Convert(Outside, text)) == Tree(raw)
    ensures var found := ResolveLast(raw, path);
            match Lookup(r.document, path)
            case Success(leaf) => found.Success? && ReadBack(leaf.text, leaf.kind) == Some(found.value)
            case Failure(error) =>
              if found.Failure? then error == found.error else error == TypeMismatch && IsNonEmptyContainer(found.value)
  {
    LookupReadsWritten(raw, path);
    var found := ResolveLast(raw, path);
    if found.Success? {
      var leaf := DescribeLeaf(found.value);
      if leaf.Success? {
        LeafReadsBack(found.value, leaf.value.text, leaf.value.kind);
      }
    }
  }

  /** The list shows the leaves of the tree as written, one for one: every key once, where it stands first, with
      what was written last. */
  lemma AcceptedTextIsListed(text: string, parse: string -> Parsed, raw: Json, r: FlattenResult)
    requires FlattenText(text, parse) == Success(r) && parse(Convert(Outside, text)) == Tree(raw)
    ensures ShowsAll(r.entries, WrittenLeaves(raw))
  {
    EntriesShowLeaves(Collapse(raw));
    LeavesAreWritten(raw);
  }

  // ------------------------------------------------------------ what rejection means

  /** The checks before parsing, in their order. */
  lemma UnfitText(text: string, parse: string -> Parsed)
    ensures |text| > 1048576 ==> FlattenText(text, parse) == Failure(DocumentTooLarge)
    ensures |text| <= 1048576 && (text == "" || '\0' in text) ==> FlattenText(text, parse) == Failure(ParseError)
  {
  }

  lemma {:induction false} FeedFailures(p: Pass, events: seq<Event>)
    requires Nested(events, |p.frames|) && Feed(p, events).Failure?
    ensures Feed(p, events).error in {ParseError, NestingTooDeep, TooManyEntries, KeyTextTooLarge}
    decreases |events|
  {
    var next := React(p, events[0]);
    if next.Success? {
      FeedFailures(next.value, events[1..]);
    }
  }

  /** The input limit has a status of its own, and the other limits are told of the converted text. */
  lemma RejectionReasons(text: string, parse: string -> Parsed)
    requires FlattenText(text, parse).Failure?
    ensures FlattenText(text, parse).error == DocumentTooLarge <==> |text| > MAX_INPUT
    ensures FlattenText(text, parse).error in
            {DocumentTooLarge, ParseError, NestingTooDeep, TooManyEntries, KeyTextTooLarge}
  {
    if Prepared(text).Success? {
      var events := Reported(parse(Prepared(text).value));
      if Feed(FRESH, events).Failure? {
        FeedFailures(FRESH, events);
      }
    }
  }

  /** The pass stops where it fails. */
  lemma {:induction false} FeedStops(p: Pass, front: seq<Event>, rest: seq<Event>)
    requires Nested(front + rest, |p.frames|) && Nested(front, |p.frames|)
    requires Feed(p, front).Failure?
    ensures Feed(p, front + rest) == Feed(p, front)
    decreases |front|
  {
    assert (front + rest)[1..] == front[1..] + rest;
    var next := React(p, front[0]);
    if next.Success? {
      FeedStops(next.value, front[1..], rest);
    }
  }

  /** A limit reached in the front of a text decides, whatever follows, well formed or not. */
  lemma FirstLimitDecides(text: string, parse: string -> Parsed, front: seq<Event>, rest: seq<Event>)
    requires Prepared(text).Success? && Reported(parse(Prepared(text).value)) == front + rest
    ensures Nested(front, 0)
    ensures Feed(FRESH, front).Failure? ==> FlattenText(text, parse) == Failure(Feed(FRESH, front).error)
  {
    NestedFront(front, rest, 0);
    if Feed(FRESH, front).Failure? {
      FeedStops(FRESH, front, rest);
    }
  }

  /** A malformed text, read as far as it goes: it is judged as the tree it was going to be until the break, and
      if no limit is met before the break it is a syntax error. */
  lemma MalformedTextVerdict(text: string, parse: string -> Parsed, front: Prefix, tree: Json, rest: seq<Event>)
    requires Prepared(text).Success? && parse(Prepared(text).value) == Malformed(front)
    requires Events(tree) == front + rest
    ensures match Feed(FRESH, front)
            case Failure(status) => Verdict(tree) == Failure(status) && FlattenText(text, parse) == Failure(status)
            case Success(_) => FlattenText(text, parse) == Failure(ParseError)
  {
    EventsAreNested(tree);
    if Feed(FRESH, front).Failure? {
      FeedStops(FRESH, front, rest);
    }
  }

  /** The status of a malformed text, told from the tree it was going to be: the first violation in text order
      among the checks before the break, and otherwise ParseError. */
  lemma MalformedTextReportsFirst(text: string, parse: string -> Parsed, front: Prefix, tree: Json, rest: seq<Event>,
                                  status: Status)
    requires Prepared(text).Success? && parse(Prepared(text).value) == Malformed(front)
    requires Events(tree) == front + rest
    ensures var n := CheckCount(front, false);
            FlattenText(text, parse) == Failure(status) <==>
              ViolatedWithin(tree, n, status) || (status == ParseError && forall other :: !ViolatedWithin(tree, n, other))
  {
    BrokenOffReportsFirst(tree, front, rest, status);
    forall other
      ensures ViolatedWithin(tree, CheckCount(front, false), other) <==> Feed(FRESH, front) == Failure(other)
    {
      BrokenOffReportsFirst(tree, front, rest, other);
    }
    if Feed(FRESH, front).Failure? {
      assert ViolatedWithin(tree, CheckCount(front, false), Feed(FRESH, front).error);
    }
  }

  // ------------------------------------------------------------ notation

  /** A text and its converted form are flattened alike exactly when the input limit treats them alike. */
  lemma ConvertedTextFlattensAlike(text: string, parse: string -> Parsed)
    ensures FlattenText(Convert(Outside, text), parse) == FlattenText(text, parse) <==>
            (|Convert(Outside, text)| > MAX_INPUT <==> |text| > MAX_INPUT)
  {
    var converted := Convert(Outside, text);
    ConvertTwice(Outside, text);
    ConvertKeepsByte(Outside, text, '\0');
    ConvertSize(Outside, text);
    if FlattenText(text, parse).Failure? {
      RejectionReasons(text, parse);
    }
    if FlattenText(converted, parse).Failure? {
      RejectionReasons(converted, parse);
    }
  }

  /** A document written with either kind of quotes, mixed freely, is the same document. */
  lemma NotationDoesNotMatter(segs: seq<Segment>, parse: string -> Parsed)
    requires forall k :: 0 <= k < |segs| ==> WellFormed(segs[k])
    requires |Render(segs)| <= MAX_INPUT && |Render(DoubleQuote(segs))| <= MAX_INPUT
    ensures FlattenText(Render(segs), parse) == FlattenText(Render(DoubleQuote(segs)), parse)
  {
    ConvertDoubleQuotes(segs);
    ConvertedTextFlattensAlike(Render(segs), parse);
  }
}
