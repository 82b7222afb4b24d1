/** The document of a text, told from the tree as written: the last field of each key, at the place of the
    first. Nothing here builds a document or a list; both are proved to say the same. */
module JsonReading {
  import opened Statuses
  import opened JsonTree
  import opened JsonPath
  import opened JsonFlatten
  import opened JsonIndex
  import opened JsonLimits
  import opened JsonVerdict
  import opened JsonDuplicates

  // ------------------------------------------------------------ reading by path

  /** One token from a node as written: the last field of that key, or the element of that index. */
  function DescendLast(node: Json, token: string): Result<Json> {
    match node
    case Object(fields) =>
      var i := FindLast(fields, token);
      if i == |fields| then Failure(PathNotFound) else Success(fields[i].value)
    case Array(elems) =>
      var index := IndexOfToken(token);
      if index.Failure? then Failure(index.error)
      else if index.value >= |elems| then Failure(IndexOutOfRange)
      else Success(elems[index.value])
    case _ => Failure(TypeMismatch)
  }

  function WalkLast(node: Json, tokens: seq<string>): Result<Json>
    decreases |tokens|
  {
    if tokens == [] then Success(node)
    else
      var child := DescendLast(node, tokens[0]);
      if child.Failure? then child else WalkLast(child.value, tokens[1..])
  }

  /** What a path leads to in a tree as written. */
  function ResolveLast(raw: Json, path: View): Result<Json> {
    var tokens := TokensOfView(path);
    if tokens.Failure? then Failure(tokens.error) else WalkLast(raw, tokens.value)
  }

  function Collapsed1(r: Result<Json>): Result<Json> {
    if r.Failure? then r else Success(Collapse(r.value))
  }

  lemma {:induction false} CollapsedElem(elems: seq<Json>, k: nat)
    requires k < |elems|
    ensures CollapseElems(elems)[k] == Collapse(elems[k])
  {
    if k > 0 {
      CollapsedElem(elems[1..], k - 1);
    }
  }

  /** A kept field is found exactly when its key was written, and holds the last value. */
  lemma KeptField(fields: seq<Field>, key: string)
    ensures var kept := PutAll([], fields);
            var i, last := FindField(kept, key), FindLast(fields, key);
            && (i < |kept| <==> last < |fields|)
            && (i < |kept| ==> kept[i].value == Collapse(fields[last].value))
  {
    var kept := PutAll([], fields);
    LastValueFirstPlace(fields);
    var i, last := FindField(kept, key), FindLast(fields, key);
    if i < |kept| {
      assert LastWins(fields, kept[i]);
    }
    if last < |fields| {
      assert FindField(kept, fields[last].key) < |kept|;
    }
  }

  lemma DescendCollapsed(node: Json, token: string)
    ensures Descend(Collapse(node), token) == Collapsed1(DescendLast(node, token))
  {
    match node {
      case Object(fields) => KeptField(fields, token);
      case Array(elems) =>
        var index := IndexOfToken(token);
        if index.Success? && index.value < |elems| {
          CollapsedElem(elems, index.value);
        }
      case _ =>
    }
  }

  lemma {:induction false} WalkCollapsed(node: Json, tokens: seq<string>)
    ensures Walk(Collapse(node), tokens) == Collapsed1(WalkLast(node, tokens))
    decreases |tokens|
  {
    if tokens != [] {
      DescendCollapsed(node, tokens[0]);
      var child := DescendLast(node, tokens[0]);
      if child.Success? {
        WalkCollapsed(child.value, tokens[1..]);
      }
    }
  }

  /** Collapsing empties no container and fills none, and leaves every leaf as it is. */
  lemma CollapseKeepsLeaves(node: Json)
    ensures IsNonEmptyContainer(Collapse(node)) <==> IsNonEmptyContainer(node)
    ensures !IsNonEmptyContainer(node) ==> Collapse(node) == node
  {
    match node {
      case Object(fields) => PutAllNonEmpty([], fields);
      case Array(elems) =>
        assert |Kids(node)| == |elems| && |Kids(Collapse(node))| == |elems|;
        assert elems == [] ==> CollapseElems(elems) == elems;
      case _ =>
    }
  }

  /** Reading the document by path is reading the tree as written by the last field of each key. */
  lemma LookupReadsWritten(raw: Json, path: View)
    ensures Lookup(Collapse(raw), path) ==
            var node := ResolveLast(raw, path);
            if node.Failure? then Failure(node.error) else DescribeLeaf(node.value)
  {
    var tokens := TokensOfView(path);
    if tokens.Success? {
      WalkCollapsed(raw, tokens.value);
      var node := WalkLast(raw, tokens.value);
      if node.Success? {
        CollapseKeepsLeaves(node.value);
      }
    }
  }

  // ------------------------------------------------------------ the leaves in order

  /** The value of the last of these fields with this key; without one, `value`. */
  function LastValue(fields: seq<Field>, key: string, value: Json): Json {
    if fields == [] then value
    else LastValue(fields[1..], key, if fields[0].key == key then fields[0].value else value)
  }

  function Without(fields: seq<Field>, key: string): (r: seq<Field>)
    ensures |r| <= |fields|
  {
    if fields == [] then []
    else if fields[0].key == key then Without(fields[1..], key)
    else [fields[0]] + Without(fields[1..], key)
  }

  /** The fields that survive: each key once, where it stands first, with its last value. */
  function Surviving(fields: seq<Field>): seq<Field>
    decreases |fields|
  {
    if fields == [] then []
    else
      var key, rest := fields[0].key, fields[1..];
      [Field(key, LastValue(rest, key, fields[0].value))] + Surviving(Without(rest, key))
  }

  function CollapsedFields(fields: seq<Field>): (r: seq<Field>)
    ensures |r| == |fields|
  {
    if fields == [] then []
    else [Field(fields[0].key, Collapse(fields[0].value))] + CollapsedFields(fields[1..])
  }

  /** Assignments behind a first field: those to its key reach it, the others pass it by. */
  lemma {:induction false} PutAllBehind(key: string, value: Json, done: seq<Field>, fields: seq<Field>)
    requires FindField(done, key) == |done|
    ensures PutAll([Field(key, Collapse(value))] + done, fields) ==
            [Field(key, Collapse(LastValue(fields, key, value)))] + PutAll(done, Without(fields, key))
    decreases |fields|
  {
    var front := [Field(key, Collapse(value))];
    if fields != [] {
      var f, rest := fields[0], fields[1..];
      if f.key == key {
        PutFirst(key, Collapse(value), done, Collapse(f.value));
        PutAllBehind(key, f.value, done, rest);
      } else {
        PutBehind(front[0], done, f.key, Collapse(f.value));
        PutAllBehind(key, value, Put(done, f.key, Collapse(f.value)), rest);
        assert ([f] + Without(rest, key))[1..] == Without(rest, key);
      }
    }
  }

  lemma PutFirst(key: string, value: Json, done: seq<Field>, value2: Json)
    ensures Put([Field(key, value)] + done, key, value2) == [Field(key, value2)] + done
  {
    assert FindField([Field(key, value)] + done, key) == 0;
  }

  lemma PutBehind(first: Field, done: seq<Field>, key: string, value: Json)
    requires first.key != key && FindField(done, first.key) == |done|
    ensures Put([first] + done, key, value) == [first] + Put(done, key, value)
    ensures FindField(Put(done, key, value), first.key) == |Put(done, key, value)|
  {
    assert ([first] + done)[1..] == done;
    assert FindField([first] + done, key) == 1 + FindField(done, key);
    var out := Put(done, key, value);
    forall j | 0 <= j < |out|
      ensures out[j].key != first.key
    {
      PutAt(done, key, value, j);
    }
  }

  /** What the parser keeps is what survives, collapsed. */
  lemma {:induction false} KeptIsSurviving(fields: seq<Field>)
    ensures PutAll([], fields) == CollapsedFields(Surviving(fields))
    decreases |fields|
  {
    if fields != [] {
      var f, rest := fields[0], fields[1..];
      var first := Field(f.key, Collapse(f.value));
      assert Put([], f.key, first.value) == [first] == [first] + [];
      PutAllBehind(f.key, f.value, [], rest);
      KeptIsSurviving(Without(rest, f.key));
      assert Surviving(fields)[1..] == Surviving(Without(rest, f.key));
    }
  }

  // ------------------------------------------------------------ sizes, for the recursion over what survives

  lemma {:induction false} SurvivingSize(fields: seq<Field>)
    ensures SizeFields(Surviving(fields)) <= SizeFields(fields)
    decreases |fields|
  {
    if fields != [] {
      var key, rest := fields[0].key, fields[1..];
      LastAndRestSize(rest, key, fields[0].value);
      SurvivingSize(Without(rest, key));
      assert Surviving(fields)[1..] == Surviving(Without(rest, key));
    }
  }

  /** A value that is replaced makes room for the one that replaces it. */
  lemma {:induction false} LastAndRestSize(fields: seq<Field>, key: string, value: Json)
    ensures Size(LastValue(fields, key, value)) + SizeFields(Without(fields, key)) <= Size(value) + SizeFields(fields)
    decreases |fields|
  {
    if fields != [] {
      var f, rest := fields[0], fields[1..];
      LastAndRestSize(rest, key, if f.key == key then f.value else value);
      assert f.key != key ==> Without(fields, key)[1..] == Without(rest, key);
    }
  }

  /** The children of a node in the document that its text stands for. */
  function SurvivingKids(node: Json): (r: seq<Field>)
    ensures SizeFields(r) < Size(node)
  {
    match node
    case Object(fields) =>
      SurvivingSize(fields);
      Surviving(fields)
    case _ => Kids(node)
  }

  /** The leaves of a tree as written: every key once, where it stands first, with what was written last. */
  ghost function WrittenLeaves(node: Json): seq<Leaf>
    decreases Size(node)
  {
    if IsNonEmptyContainer(node) then WrittenLeavesKids(SurvivingKids(node)) else [Leaf([], node)]
  }

  ghost function WrittenLeavesKids(kids: seq<Field>): seq<Leaf>
    decreases SizeFields(kids)
  {
    if kids == [] then [] else Under(kids[0].key, WrittenLeaves(kids[0].value)) + WrittenLeavesKids(kids[1..])
  }

  lemma {:induction false} CollapsedIndexed(elems: seq<Json>, from: nat)
    ensures Indexed(CollapseElems(elems), from) == CollapsedFields(Indexed(elems, from))
    decreases |elems|
  {
    if elems != [] {
      CollapsedIndexed(elems[1..], from + 1);
      assert CollapseElems(elems)[1..] == CollapseElems(elems[1..]);
      assert Indexed(elems, from)[1..] == Indexed(elems[1..], from + 1);
    }
  }

  lemma KidsCollapsed(node: Json)
    ensures Kids(Collapse(node)) == CollapsedFields(SurvivingKids(node))
  {
    match node {
      case Object(fields) => KeptIsSurviving(fields);
      case Array(elems) => CollapsedIndexed(elems, 0);
      case _ =>
    }
  }

  /** The leaves of the document are the leaves of the tree as written, in the same order. */
  lemma {:induction false} LeavesAreWritten(node: Json)
    ensures Leaves(Collapse(node)) == WrittenLeaves(node)
    decreases Size(node), 0
  {
    CollapseKeepsLeaves(node);
    if IsNonEmptyContainer(node) {
      KidsCollapsed(node);
      LeavesOfKidsAreWritten(SurvivingKids(node));
    }
  }

  lemma {:induction false} LeavesOfKidsAreWritten(kids: seq<Field>)
    ensures LeavesKids(CollapsedFields(kids)) == WrittenLeavesKids(kids)
    decreases SizeFields(kids), 1
  {
    if kids != [] {
      LeavesAreWritten(kids[0].value);
      LeavesOfKidsAreWritten(kids[1..]);
      assert CollapsedFields(kids)[1..] == CollapsedFields(kids[1..]);
    }
  }

  // ------------------------------------------------------------ the limits, told of leaves

  /** The bytes of all the pointers that lead to these leaves. */
  ghost function PathBytes(leaves: seq<Leaf>): nat {
    if leaves == [] then 0 else |Print(leaves[0].path)| + PathBytes(leaves[1..])
  }

  lemma {:induction false} KeyBytesArePathBytes(entries: seq<FlatEntry>, leaves: seq<Leaf>)
    requires ShowsAll(entries, leaves)
    ensures KeyBytes(Keys(entries)) == PathBytes(leaves)
  {
    if entries != [] {
      assert Shows(entries[0], leaves[0]);
      forall n | 0 <= n < |entries[1..]|
        ensures Shows(entries[1..][n], leaves[1..][n])
      {
        assert Shows(entries[n + 1], leaves[n + 1]);
      }
      KeyBytesArePathBytes(entries[1..], leaves[1..]);
      assert Keys(entries)[1..] == Keys(entries[1..]);
    }
  }

  /** The limits, in their documented numbers: depth 64, ten thousand leaves, four MiB of pointers, no NUL in a key. */
  ghost predicate MeetsLimits(raw: Json) {
    Depth(raw) <= 64 && NoNulKeys(raw) && |Leaves(raw)| <= 10000 && PathBytes(Leaves(raw)) <= 4194304
  }

  lemma LimitPassIff(raw: Json)
    ensures Verdict(raw).Success? <==> MeetsLimits(raw)
  {
    LimitPassAccepts(raw);
    EntriesShowLeaves(raw);
    KeyBytesArePathBytes(Flatten(raw, ""), Leaves(raw));
  }
}
