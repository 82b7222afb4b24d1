/** Flattening of src/mapping/json-flatten.cpp: a document as a list of JSON Pointer leaf entries, and the
    explicit-stack traversal, with one shared path buffer, that produces it. */
module JsonFlatten {
  import opened Statuses
  import opened Numerals
  import opened JsonTree
  import opened JsonPath

  datatype EntryType = StringEntry | NumberEntry | BoolEntry | NullEntry | EmptyObjectEntry | EmptyArrayEntry

  datatype FlatEntry = FlatEntry(key: string, value: string, kind: EntryType)

  datatype LeafText = LeafText(text: string, kind: EntryType)

  /** The text and type of a scalar, null or empty container. */
  function DescribeLeaf(node: Json): Result<LeafText> {
    if IsNonEmptyContainer(node) then Failure(TypeMismatch)
    else
      match node
      case Object(_) => Success(LeafText("{}", EmptyObjectEntry))
      case Array(_) => Success(LeafText("[]", EmptyArrayEntry))
      case String(s) => Success(LeafText(s, StringEntry))
      case Number(text) => Success(LeafText(text, NumberEntry))
      case Bool(b) => Success(LeafText(if b then "true" else "false", BoolEntry))
      case Null => Success(LeafText("null", NullEntry))
  }

  /** The leaf that a text and a type stand for: fixed spellings for all but strings and numbers. */
  function ReadBack(text: string, kind: EntryType): Option<Json> {
    match kind
    case StringEntry => Some(String(text))
    case NumberEntry => Some(Number(text))
    case BoolEntry =>
      if text == ['t', 'r', 'u', 'e'] then Some(Bool(true))
      else if text == ['f', 'a', 'l', 's', 'e'] then Some(Bool(false)) else None
    case NullEntry => if text == ['n', 'u', 'l', 'l'] then Some(Null) else None
    case EmptyObjectEntry => if text == ['{', '}'] then Some(Object([])) else None
    case EmptyArrayEntry => if text == ['[', ']'] then Some(Array([])) else None
  }

  /** A leaf shows exactly the text and type that it can be read back from. */
  lemma LeafReadsBack(node: Json, text: string, kind: EntryType)
    ensures DescribeLeaf(node) == Success(LeafText(text, kind)) <==> ReadBack(text, kind) == Some(node)
  {
    if DescribeLeaf(node).Success? {
      match node {
        case Object(fields) => assert fields == [];
        case Array(elems) => assert elems == [];
        case _ =>
      }
    }
  }

  /** The nodes that are no leaves: containers that hold something. */
  lemma NoLeaf(node: Json, error: Status)
    ensures DescribeLeaf(node) == Failure(error) <==>
            error == TypeMismatch && ((node.Object? && node.fields != []) || (node.Array? && node.elems != []))
  {
    if node.Array? {
      assert |Kids(node)| == |node.elems|;
    }
  }

  /** The path of a child of the container at `at`. */
  function ChildPath(at: string, key: string): string { at + ['/'] + Escape(key) }

  function LeafEntry(at: string, node: Json): FlatEntry
    requires !IsNonEmptyContainer(node)
  {
    FlatEntry(at, DescribeLeaf(node).value.text, DescribeLeaf(node).value.kind)
  }

  /** The leaves of the node at path `at`, depth first, in document order. */
  function Flatten(node: Json, at: string): seq<FlatEntry>
    decreases Size(node)
  {
    if IsNonEmptyContainer(node) then FlattenKids(Kids(node), at) else [LeafEntry(at, node)]
  }

  function FlattenKids(kids: seq<Field>, at: string): seq<FlatEntry>
    decreases SizeFields(kids)
  {
    if kids == [] then []
    else Flatten(kids[0].value, ChildPath(at, kids[0].key)) + FlattenKids(kids[1..], at)
  }

  // ------------------------------------------------------------ the traversal

  /** A container being visited: its children, the next one, and how much of the path buffer is its own path. */
  datatype Frame = Frame(kids: seq<Field>, next: nat, index: nat, prefixSize: nat, isObject: bool)

  /** The frame of a container just reached. */
  function FrameOf(node: Json, prefixSize: nat): Frame { Frame(Kids(node), 0, 0, prefixSize, node.Object?) }

  ghost predicate GoodFrame(f: Frame) {
    && f.next == f.index <= |f.kids|
    && (!f.isObject ==> forall k :: 0 <= k < |f.kids| ==> f.kids[k].key == Decimal(k))
  }

  /** Each frame's path fits in the buffer, and in the path of the frames above it. */
  ghost predicate Stacked(stack: seq<Frame>, path: string) {
    && (forall k :: 0 <= k < |stack| ==> GoodFrame(stack[k]) && stack[k].prefixSize <= |path|)
    && (forall j, k :: 0 <= j < k < |stack| ==> stack[j].prefixSize <= stack[k].prefixSize)
  }

  /** The entries the frames still owe, from the top of the stack down. */
  ghost function Owed(stack: seq<Frame>, path: string): seq<FlatEntry>
    requires Stacked(stack, path)
  {
    if stack == [] then []
    else
      var top := stack[|stack| - 1];
      FlattenKids(top.kids[top.next..], path[..top.prefixSize]) + Owed(stack[..|stack| - 1], path)
  }

  ghost function Work(stack: seq<Frame>): nat
    requires forall k :: 0 <= k < |stack| ==> GoodFrame(stack[k])
  {
    if stack == [] then 0
    else
      var top := stack[|stack| - 1];
      assert GoodFrame(top);
      1 + SizeFields(top.kids[top.next..]) + Work(stack[..|stack| - 1])
  }

  /** Frames do not notice what happens to the buffer beyond their own paths. */
  lemma {:induction false} OwedUpTo(stack: seq<Frame>, p: string, q: string, m: nat)
    requires Stacked(stack, p) && Stacked(stack, q) && m <= |p| && m <= |q| && p[..m] == q[..m]
    requires stack != [] ==> stack[|stack| - 1].prefixSize <= m
    ensures Owed(stack, p) == Owed(stack, q)
  {
    if stack != [] {
      var top, rest := stack[|stack| - 1], stack[..|stack| - 1];
      assert p[..top.prefixSize] == p[..m][..top.prefixSize];
      assert q[..top.prefixSize] == q[..m][..top.prefixSize];
      OwedUpTo(rest, p, q, m);
    }
  }

  function Resize(s: string, n: nat): string {
    if n <= |s| then s[..n] else s + seq(n - |s|, _ => '\0')
  }

  method AppendEscapedToken(out: string, token: string) returns (r: string)
    ensures r == out + Escape(token)
  {
    r := out;
    var i := 0;
    assert token[i..] == token;
    while i < |token|
      invariant i <= |token|
      invariant r + Escape(token[i..]) == out + Escape(token)
    {
      var c := token[i];
      assert token[i..][1..] == token[i + 1..];
      ghost var rest := Escape(token[i + 1..]);
      if c == '~' {
        assert r + ("~0" + rest) == (r + "~0") + rest;
        r := r + "~0";
      } else if c == '/' {
        assert r + ("~1" + rest) == (r + "~1") + rest;
        r := r + "~1";
      } else {
        assert r + ([c] + rest) == (r + [c]) + rest;
        r := r + [c];
      }
      i := i + 1;
    }
    assert r + "" == r;
  }

  lemma NewFrameIsGood(node: Json, prefixSize: nat)
    requires IsContainer(node)
    ensures GoodFrame(FrameOf(node, prefixSize))
  {
    if node.Array? {
      forall k | 0 <= k < |Kids(node)|
        ensures Kids(node)[k].key == Decimal(k)
      {
        IndexedAt(node.elems, 0, k);
      }
    }
  }

  /** The stack after its top frame has taken its next child. */
  function Stepped(stack: seq<Frame>): seq<Frame>
    requires stack != []
  {
    var top := stack[|stack| - 1];
    stack[|stack| - 1 := top.(next := top.next + 1, index := top.index + 1)]
  }

  /** The path buffer holds the path of the child that the top frame takes next. */
  ghost predicate AtNextChild(stack: seq<Frame>, path: string, path2: string)
    requires stack != []
  {
    var top := stack[|stack| - 1];
    && Stacked(stack, path) && top.next < |top.kids|
    && path2 == ChildPath(path[..top.prefixSize], top.kids[top.next].key)
  }

  lemma SteppedStacked(stack: seq<Frame>, path: string, path2: string)
    requires stack != [] && AtNextChild(stack, path, path2)
    ensures Stacked(Stepped(stack), path2)
  {
    var top := stack[|stack| - 1];
    assert |path[..top.prefixSize]| == top.prefixSize;
    assert GoodFrame(top.(next := top.next + 1, index := top.index + 1));
  }

  lemma SteppedWork(stack: seq<Frame>, path: string, path2: string)
    requires stack != [] && AtNextChild(stack, path, path2) && Stacked(Stepped(stack), path2)
    ensures var top := stack[|stack| - 1];
            Work(stack) == Work(Stepped(stack)) + 1 + Size(top.kids[top.next].value)
  {
    var last := |stack| - 1;
    var top := stack[last];
    assert Stepped(stack)[..last] == stack[..last];
    assert top.kids[top.next..][1..] == top.kids[top.next + 1..];
  }

  lemma SteppedOwed(stack: seq<Frame>, path: string, path2: string)
    requires stack != [] && AtNextChild(stack, path, path2) && Stacked(Stepped(stack), path2)
    ensures var top := stack[|stack| - 1];
            Owed(stack, path) == Flatten(top.kids[top.next].value, path2) + Owed(Stepped(stack), path2)
  {
    var last := |stack| - 1;
    var top, rest, at := stack[last], stack[..last], path[..stack[last].prefixSize];
    assert Stepped(stack)[..last] == rest;
    assert top.kids[top.next..][1..] == top.kids[top.next + 1..];
    assert path2[..top.prefixSize] == at;
    OwedUpTo(rest, path, path2, top.prefixSize);
    Assoc(Flatten(top.kids[top.next].value, path2), FlattenKids(top.kids[top.next + 1..], at), Owed(rest, path));
  }

  /** The next child leaves the stack's debt: what the top frame owed is the child's entries and the rest. */
  lemma TakeChild(stack: seq<Frame>, path: string, path2: string)
    requires stack != [] && AtNextChild(stack, path, path2)
    ensures var top := stack[|stack| - 1];
            var child := top.kids[top.next].value;
            && Stacked(Stepped(stack), path2)
            && Owed(stack, path) == Flatten(child, path2) + Owed(Stepped(stack), path2)
            && Work(stack) == Work(Stepped(stack)) + 1 + Size(child)
  {
    SteppedStacked(stack, path, path2);
    SteppedOwed(stack, path, path2);
    SteppedWork(stack, path, path2);
  }

  /** A frame for a container, on top of the stack, owes exactly the container's entries. */
  lemma PushFrame(stack: seq<Frame>, path: string, node: Json)
    requires Stacked(stack, path) && IsNonEmptyContainer(node)
    ensures var stack2 := stack + [FrameOf(node, |path|)];
            && Stacked(stack2, path)
            && Owed(stack2, path) == Flatten(node, path) + Owed(stack, path)
            && Work(stack2) < Work(stack) + 1 + Size(node)
  {
    var f := FrameOf(node, |path|);
    NewFrameIsGood(node, |path|);
    var stack2 := stack + [f];
    assert stack2[..|stack|] == stack;
    assert f.kids[0..] == Kids(node) && path[..|path|] == path;
  }

  /** Cuts the buffer back to the frame's own path and appends the token of its next child. */
  method NextPath(path: string, frame: Frame) returns (r: string)
    requires GoodFrame(frame) && frame.next < |frame.kids| && frame.prefixSize <= |path|
    ensures r == ChildPath(path[..frame.prefixSize], frame.kids[frame.next].key)
  {
    r := Resize(path, frame.prefixSize);
    r := r + ['/'];
    if frame.isObject {
      r := AppendEscapedToken(r, frame.kids[frame.next].key);
    } else {
      DecimalIsCanonical(frame.index);
      EscapeDigits(Decimal(frame.index));
      r := r + Decimal(frame.index);
    }
  }

  /** A finished frame owes nothing. */
  lemma PopFrame(stack: seq<Frame>, path: string)
    requires Stacked(stack, path) && stack != []
    requires stack[|stack| - 1].next == |stack[|stack| - 1].kids|
    ensures Stacked(stack[..|stack| - 1], path)
    ensures Owed(stack, path) == Owed(stack[..|stack| - 1], path)
    ensures Work(stack[..|stack| - 1]) < Work(stack)
  {
  }

  lemma Assoc(a: seq<FlatEntry>, b: seq<FlatEntry>, c: seq<FlatEntry>)
    ensures a + (b + c) == a + b + c
  {
  }

  /** Appends a leaf's entry; a node that is no leaf is refused. */
  method AppendLeaf(key: string, node: Json, entries: seq<FlatEntry>) returns (status: Status, r: seq<FlatEntry>)
    ensures IsNonEmptyContainer(node) ==> status == TypeMismatch && r == entries
    ensures !IsNonEmptyContainer(node) ==> status == Ok && r == entries + [LeafEntry(key, node)]
  {
    var leaf := DescribeLeaf(node);
    if leaf.Failure? {
      return leaf.error, entries;
    }
    return Ok, entries + [FlatEntry(key, leaf.value.text, leaf.value.kind)];
  }

  /** One turn of the loop: what is listed and what the stack owes stay the whole list, and there is less to do. */
  lemma TurnKeepsList(stack: seq<Frame>, path: string, path2: string, entries: seq<FlatEntry>, list: seq<FlatEntry>)
    requires stack != [] && AtNextChild(stack, path, path2) && entries + Owed(stack, path) == list
    ensures var top := stack[|stack| - 1];
            var child := top.kids[top.next].value;
            var pushed := Stepped(stack) + [FrameOf(child, |path2|)];
            && Stacked(Stepped(stack), path2)
            && (IsNonEmptyContainer(child) ==>
                  Stacked(pushed, path2) && entries + Owed(pushed, path2) == list && Work(pushed) < Work(stack))
            && (!IsNonEmptyContainer(child) ==>
                  entries + [LeafEntry(path2, child)] + Owed(Stepped(stack), path2) == list
                  && Work(Stepped(stack)) < Work(stack))
  {
    var top := stack[|stack| - 1];
    var child := top.kids[top.next].value;
    TakeChild(stack, path, path2);
    if IsNonEmptyContainer(child) {
      PushFrame(Stepped(stack), path2, child);
    } else {
      Assoc(entries, Flatten(child, path2), Owed(Stepped(stack), path2));
    }
  }

  // ------------------------------------------------------------ where the frames stand

  /** The tokens lead from the root to the node, child by child. */
  ghost predicate Leads(root: Json, tokens: seq<string>, node: Json)
    decreases |tokens|
  {
    if tokens == [] then node == root
    else exists k :: 0 <= k < |Kids(root)| && LeadsVia(root, k, tokens, node)
  }

  ghost predicate LeadsVia(root: Json, k: nat, tokens: seq<string>, node: Json)
    requires k < |Kids(root)| && tokens != []
    decreases |tokens|, 0
  {
    Kids(root)[k].key == tokens[0] && Leads(Kids(root)[k].value, tokens[1..], node)
  }

  lemma {:induction false} LeadsToKid(root: Json, tokens: seq<string>, node: Json, k: nat)
    requires Leads(root, tokens, node) && k < |Kids(node)|
    ensures Leads(root, tokens + [Kids(node)[k].key], Kids(node)[k].value)
    decreases |tokens|
  {
    var longer := tokens + [Kids(node)[k].key];
    if tokens == [] {
      assert longer[1..] == [];
      assert LeadsVia(root, k, longer, Kids(node)[k].value);
    } else {
      var j :| 0 <= j < |Kids(root)| && LeadsVia(root, j, tokens, node);
      LeadsToKid(Kids(root)[j].value, tokens[1..], node, k);
      assert longer[1..] == tokens[1..] + [Kids(node)[k].key];
      assert LeadsVia(root, j, longer, Kids(node)[k].value);
    }
  }

  /** An open container and the tokens that lead to it. */
  datatype Place = Place(tokens: seq<string>, node: Json)

  /** The frame visits this container, and its prefix of the buffer is the container's pointer. */
  ghost predicate StandsAt(root: Json, f: Frame, path: string, place: Place) {
    && Leads(root, place.tokens, place.node)
    && f.kids == Kids(place.node) && f.isObject == place.node.Object?
    && f.prefixSize <= |path| && path[..f.prefixSize] == Print(place.tokens)
  }

  ghost predicate Placed(root: Json, stack: seq<Frame>, path: string, places: seq<Place>) {
    |places| == |stack| && forall k :: 0 <= k < |stack| ==> StandsAt(root, stack[k], path, places[k])
  }

  /** The place of the child that the top frame takes next. */
  ghost function NextPlace(stack: seq<Frame>, places: seq<Place>): Place
    requires stack != [] && |places| == |stack| && stack[|stack| - 1].next < |stack[|stack| - 1].kids|
  {
    var top := stack[|stack| - 1];
    Place(places[|stack| - 1].tokens + [top.kids[top.next].key], top.kids[top.next].value)
  }

  /** At every turn each frame's prefix of the buffer is the pointer of its container, and the buffer is the
      pointer of the child taken. */
  lemma TurnKeepsPlaces(root: Json, stack: seq<Frame>, path: string, path2: string, places: seq<Place>)
    requires stack != [] && AtNextChild(stack, path, path2) && Placed(root, stack, path, places)
    ensures Placed(root, Stepped(stack), path2, places)
    ensures var place := NextPlace(stack, places);
            path2 == Print(place.tokens) && Leads(root, place.tokens, place.node)
  {
    var last := |stack| - 1;
    var top := stack[last];
    assert StandsAt(root, top, path, places[last]);
    PrintSnoc(places[last].tokens, top.kids[top.next].key);
    LeadsToKid(root, places[last].tokens, places[last].node, top.next);
    forall k | 0 <= k < |stack|
      ensures StandsAt(root, Stepped(stack)[k], path2, places[k])
    {
      assert StandsAt(root, stack[k], path, places[k]);
      PrefixStays(path, path2, stack[k].prefixSize, top.prefixSize);
    }
  }

  lemma PrefixStays(path: string, path2: string, n: nat, m: nat)
    requires n <= m <= |path| && path[..m] <= path2
    ensures n <= |path2| && path2[..n] == path[..n]
  {
    assert path[..n] == path[..m][..n] && path2[..n] == path2[..m][..n];
  }

  lemma PushKeepsPlaces(root: Json, stack: seq<Frame>, path: string, places: seq<Place>, place: Place)
    requires Placed(root, stack, path, places) && path == Print(place.tokens) && Leads(root, place.tokens, place.node)
    ensures Placed(root, stack + [FrameOf(place.node, |path|)], path, places + [place])
  {
    assert path[..|path|] == path;
  }

  // ------------------------------------------------------------ the loop

  /** Between two turns: every frame stands at its container, and what is listed and what is owed make the list. */
  ghost predicate Walking(root: Json, stack: seq<Frame>, path: string, places: seq<Place>, entries: seq<FlatEntry>) {
    && Stacked(stack, path) && Placed(root, stack, path, places)
    && entries + Owed(stack, path) == Flatten(root, "")
  }

  /** A single frame owes its container's entries. */
  lemma OneFrame(node: Json, path: string)
    ensures Stacked([FrameOf(node, |path|)], path)
    ensures Owed([FrameOf(node, |path|)], path) == FlattenKids(Kids(node), path)
  {
    var stack := [FrameOf(node, |path|)];
    if IsContainer(node) {
      NewFrameIsGood(node, |path|);
    }
    assert stack[..0] == [] && path[..|path|] == path && Kids(node)[0..] == Kids(node);
    assert FlattenKids(Kids(node), path) + [] == FlattenKids(Kids(node), path);
  }

  lemma StartsWalking(root: Json, path: string)
    requires IsNonEmptyContainer(root) && path == ""
    ensures Walking(root, [FrameOf(root, 0)], path, [Place([], root)], [])
  {
    OneFrame(root, path);
    assert [] + Flatten(root, path) == Flatten(root, path);
    assert path[..0] == path && StandsAt(root, FrameOf(root, 0), path, Place([], root));
  }

  lemma PopKeepsPlaces(root: Json, stack: seq<Frame>, path: string, places: seq<Place>)
    requires Placed(root, stack, path, places) && stack != []
    ensures Placed(root, stack[..|stack| - 1], path, places[..|stack| - 1])
  {
  }

  lemma PopKeepsWalking(root: Json, stack: seq<Frame>, path: string, places: seq<Place>, entries: seq<FlatEntry>)
    requires Walking(root, stack, path, places, entries) && stack != []
    requires stack[|stack| - 1].next == |stack[|stack| - 1].kids|
    ensures Walking(root, stack[..|stack| - 1], path, places[..|stack| - 1], entries)
    ensures Work(stack[..|stack| - 1]) < Work(stack)
  {
    PopFrame(stack, path);
    PopKeepsPlaces(root, stack, path, places);
  }

  /** A turn that opens a container or lists a leaf. */
  lemma TurnKeepsWalking(root: Json, stack: seq<Frame>, path: string, path2: string, places: seq<Place>, entries: seq<FlatEntry>)
    requires Walking(root, stack, path, places, entries) && stack != [] && AtNextChild(stack, path, path2)
    ensures var place := NextPlace(stack, places);
            var pushed := Stepped(stack) + [FrameOf(place.node, |path2|)];
            && path2 == Print(place.tokens) && Leads(root, place.tokens, place.node)
            && (IsNonEmptyContainer(place.node) ==>
                  Walking(root, pushed, path2, places + [place], entries) && Work(pushed) < Work(stack))
            && (!IsNonEmptyContainer(place.node) ==>
                  && Walking(root, Stepped(stack), path2, places, entries + [LeafEntry(path2, place.node)])
                  && Work(Stepped(stack)) < Work(stack))
  {
    TurnKeepsList(stack, path, path2, entries, Flatten(root, ""));
    TurnKeepsPlaces(root, stack, path, path2, places);
    PushKeepsPlaces(root, Stepped(stack), path2, places, NextPlace(stack, places));
  }

  lemma NothingOwed(root: Json, path: string, places: seq<Place>, entries: seq<FlatEntry>)
    requires Walking(root, [], path, places, entries)
    ensures entries == Flatten(root, "")
  {
    assert entries + [] == entries;
  }

  /** Walks the document with an explicit stack and one path buffer, and returns the recursive list. */
  method FlattenDocument(root: Json) returns (status: Status, entries: seq<FlatEntry>)
    ensures status == Ok && entries == Flatten(root, "")
  {
    entries := [];
    var path := "";
    if !IsNonEmptyContainer(root) {
      status, entries := AppendLeaf(path, root, entries);
      return;
    }
    var stack := [Frame(Kids(root), 0, 0, 0, root.Object?)];
    ghost var places := [Place([], root)];
    StartsWalking(root, path);
    while stack != []
      invariant Walking(root, stack, path, places, entries)
      decreases Work(stack)
    {
      var last := |stack| - 1;
      var frame := stack[last];
      if frame.next == |frame.kids| {
        PopKeepsWalking(root, stack, path, places, entries);
        stack, places := stack[..last], places[..last];
        continue;
      }
      ghost var oldPath := path;
      path := NextPath(path, frame);
      TurnKeepsWalking(root, stack, oldPath, path, places, entries);
      ghost var place := NextPlace(stack, places);
      var child := frame.kids[frame.next].value;
      stack := stack[last := frame.(next := frame.next + 1, index := frame.index + 1)];

      if IsNonEmptyContainer(child) {
        stack := stack + [Frame(Kids(child), 0, 0, |path|, child.Object?)];
        places := places + [place];
      } else {
        status, entries := AppendLeaf(path, child, entries);
      }
    }
    NothingOwed(root, path, places, entries);
    return Ok, entries;
  }
}
