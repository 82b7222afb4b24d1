/** The flat list and the tree are two views of one document: looking a path up and finding it among the
    entries are the same thing (docs/json-flatten.md, "Key format"). */
module JsonIndex {
  import opened Statuses
  import opened JsonTree
  import opened JsonPath
  import opened JsonFlatten

  /** Every array is short enough for its indices to be read back. */
  predicate Indexable(node: Json)
    decreases Size(node)
  {
    (node.Array? ==> |node.elems| <= TWO_32) && IndexableKids(Kids(node))
  }

  predicate IndexableKids(kids: seq<Field>)
    decreases SizeFields(kids)
  {
    kids == [] || (Indexable(kids[0].value) && IndexableKids(kids[1..]))
  }

  lemma {:induction false} IndexableKid(kids: seq<Field>, k: nat)
    requires IndexableKids(kids) && k < |kids|
    ensures Indexable(kids[k].value)
    decreases k
  {
    if k > 0 {
      IndexableKid(kids[1..], k - 1);
    }
  }

  // ------------------------------------------------------------ leaves by their token paths

  datatype Leaf = Leaf(path: seq<string>, node: Json)

  ghost function Under(token: string, leaves: seq<Leaf>): (r: seq<Leaf>)
    ensures |r| == |leaves|
    ensures forall k :: 0 <= k < |r| ==> r[k] == Leaf([token] + leaves[k].path, leaves[k].node)
  {
    seq(|leaves|, k requires 0 <= k < |leaves| => Leaf([token] + leaves[k].path, leaves[k].node))
  }

  /** The leaves of a node with the tokens that lead to them, in document order. */
  ghost function Leaves(node: Json): seq<Leaf>
    decreases Size(node)
  {
    if IsNonEmptyContainer(node) then LeavesKids(Kids(node)) else [Leaf([], node)]
  }

  ghost function LeavesKids(kids: seq<Field>): seq<Leaf>
    decreases SizeFields(kids)
  {
    if kids == [] then [] else Under(kids[0].key, Leaves(kids[0].value)) + LeavesKids(kids[1..])
  }

  ghost predicate IsEntryOf(e: FlatEntry, at: string, leaf: Leaf) {
    && DescribeLeaf(leaf.node) == Success(LeafText(e.value, e.kind))
    && e.key == at + Print(leaf.path)
  }

  ghost predicate EntriesOf(entries: seq<FlatEntry>, at: string, leaves: seq<Leaf>) {
    |entries| == |leaves| && forall k :: 0 <= k < |entries| ==> IsEntryOf(entries[k], at, leaves[k])
  }

  /** The entries are the leaves, printed. */
  lemma {:induction false} FlattenPrints(node: Json, at: string)
    ensures EntriesOf(Flatten(node, at), at, Leaves(node))
    decreases Size(node), 0
  {
    if IsNonEmptyContainer(node) {
      FlattenKidsPrints(Kids(node), at);
    } else {
      assert at + Print([]) == at;
    }
  }

  lemma {:induction false} FlattenKidsPrints(kids: seq<Field>, at: string)
    ensures EntriesOf(FlattenKids(kids, at), at, LeavesKids(kids))
    decreases SizeFields(kids), 1
  {
    if kids != [] {
      var at2 := ChildPath(at, kids[0].key);
      FlattenPrints(kids[0].value, at2);
      FlattenKidsPrints(kids[1..], at);
      UnderPrints(Flatten(kids[0].value, at2), at, kids[0].key, Leaves(kids[0].value));
    }
  }

  lemma UnderPrints(entries: seq<FlatEntry>, at: string, token: string, leaves: seq<Leaf>)
    requires EntriesOf(entries, ChildPath(at, token), leaves)
    ensures EntriesOf(entries, at, Under(token, leaves))
  {
    forall k | 0 <= k < |entries|
      ensures IsEntryOf(entries[k], at, Under(token, leaves)[k])
    {
      var path := leaves[k].path;
      assert IsEntryOf(entries[k], ChildPath(at, token), leaves[k]);
      assert ([token] + path)[1..] == path;
      assert at + (['/'] + Escape(token) + Print(path)) == at + ['/'] + Escape(token) + Print(path);
    }
  }

  // ------------------------------------------------------------ tokens and children

  /** One token leads from a node to a child exactly when the child is listed under that token. */
  lemma DescendIffKid(node: Json, token: string, child: Json)
    requires Unique(node) && Indexable(node)
    ensures Descend(node, token) == Success(child) <==>
            exists k :: 0 <= k < |Kids(node)| && Kids(node)[k] == Field(token, child)
  {
    var kids := Kids(node);
    if node.Object? && Descend(node, token) == Success(child) {
      var k := FindField(node.fields, token);
      assert kids[k] == Field(token, child);
    } else if node.Array? {
      ArrayDescendIffKid(node, token, child);
    }
    if node.Object? && exists k :: 0 <= k < |kids| && kids[k] == Field(token, child) {
      var k :| 0 <= k < |kids| && kids[k] == Field(token, child);
      assert FindField(node.fields, token) == k;
    }
  }

  lemma ElementIsKid(elems: seq<Json>, token: string, k: u32)
    requires IndexOfToken(token) == Success(k) && k < |elems|
    ensures Kids(Array(elems))[k] == Field(token, elems[k])
  {
    IndexIff(token, k);
    IndexedAt(elems, 0, k);
  }

  lemma KidIsElement(elems: seq<Json>, k: nat)
    requires k < |elems| <= TWO_32
    ensures Kids(Array(elems))[k].value == elems[k]
    ensures IndexOfToken(Kids(Array(elems))[k].key) == Success(k)
  {
    IndexedAt(elems, 0, k);
    IndexIff(Kids(Array(elems))[k].key, k);
  }

  lemma ArrayDescendIffKid(node: Json, token: string, child: Json)
    requires node.Array? && |node.elems| <= TWO_32
    ensures Descend(node, token) == Success(child) <==>
            exists k :: 0 <= k < |Kids(node)| && Kids(node)[k] == Field(token, child)
  {
    var kids := Kids(node);
    if Descend(node, token) == Success(child) {
      ElementIsKid(node.elems, token, IndexOfToken(token).value);
    }
    if exists k :: 0 <= k < |kids| && kids[k] == Field(token, child) {
      var k :| 0 <= k < |kids| && kids[k] == Field(token, child);
      KidIsElement(node.elems, k);
    }
  }

  /** The tokens that lead to a node child by child are those that resolve to it. */
  lemma {:induction false} LeadsIffWalk(root: Json, tokens: seq<string>, node: Json)
    requires Unique(root) && Indexable(root)
    ensures Leads(root, tokens, node) <==> Walk(root, tokens) == Success(node)
    decreases |tokens|
  {
    if tokens != [] {
      forall k | 0 <= k < |Kids(root)|
        ensures LeadsVia(root, k, tokens, node) <==>
                Kids(root)[k].key == tokens[0] && Walk(Kids(root)[k].value, tokens[1..]) == Success(node)
        ensures Kids(root)[k].key == tokens[0] ==> Descend(root, tokens[0]) == Success(Kids(root)[k].value)
      {
        UniqueKid(Kids(root), k);
        IndexableKid(Kids(root), k);
        LeadsIffWalk(Kids(root)[k].value, tokens[1..], node);
        DescendIffKid(root, Kids(root)[k].key, Kids(root)[k].value);
      }
      if Walk(root, tokens) == Success(node) {
        var child := Descend(root, tokens[0]).value;
        DescendIffKid(root, tokens[0], child);
        var k :| 0 <= k < |Kids(root)| && Kids(root)[k] == Field(tokens[0], child);
        assert LeadsVia(root, k, tokens, node);
      }
    }
  }

  // ------------------------------------------------------------ leaves and walks

  ghost predicate Reaches(node: Json, leaf: Leaf) {
    Walk(node, leaf.path) == Success(leaf.node) && !IsNonEmptyContainer(leaf.node)
  }

  /** Every listed leaf is reached by its tokens. */
  lemma {:induction false} LeavesAreReached(node: Json, n: nat)
    requires Unique(node) && Indexable(node) && n < |Leaves(node)|
    ensures Reaches(node, Leaves(node)[n])
    decreases Size(node), 0
  {
    if IsNonEmptyContainer(node) {
      var k, m := LeafOfKid(Kids(node), n);
      var kid := Kids(node)[k];
      UniqueKid(Kids(node), k);
      IndexableKid(Kids(node), k);
      SizeOfKid(Kids(node), k);
      LeavesAreReached(kid.value, m);
      DescendIffKid(node, kid.key, kid.value);
      var inner := Leaves(kid.value)[m];
      assert Leaves(node)[n].path[0] == kid.key && Leaves(node)[n].path[1..] == inner.path;
    }
  }

  /** Which child a listed leaf belongs to, and its place among that child's leaves. */
  lemma {:induction false} LeafOfKid(kids: seq<Field>, n: nat) returns (k: nat, m: nat)
    requires n < |LeavesKids(kids)|
    ensures k < |kids| && m < |Leaves(kids[k].value)|
    ensures LeavesKids(kids)[n] == Leaf([kids[k].key] + Leaves(kids[k].value)[m].path, Leaves(kids[k].value)[m].node)
    decreases |kids|
  {
    var first := Under(kids[0].key, Leaves(kids[0].value));
    if n < |first| {
      k, m := 0, n;
    } else {
      k, m := LeafOfKid(kids[1..], n - |first|);
      k := k + 1;
    }
  }

  /** The child that a token leads to. */
  lemma KidOfToken(node: Json, token: string) returns (k: nat)
    requires Unique(node) && Indexable(node) && Descend(node, token).Success?
    ensures k < |Kids(node)| && Kids(node)[k] == Field(token, Descend(node, token).value)
    ensures Unique(Kids(node)[k].value) && Indexable(Kids(node)[k].value)
  {
    DescendIffKid(node, token, Descend(node, token).value);
    k :| 0 <= k < |Kids(node)| && Kids(node)[k] == Field(token, Descend(node, token).value);
    UniqueKid(Kids(node), k);
    IndexableKid(Kids(node), k);
  }

  /** Every leaf that tokens reach is listed. */
  lemma {:induction false} ReachedAreLeaves(node: Json, leaf: Leaf)
    requires Unique(node) && Indexable(node) && Reaches(node, leaf)
    ensures leaf in Leaves(node)
    decreases |leaf.path|
  {
    if leaf.path == [] {
      assert leaf == Leaves(node)[0];
    } else {
      var token, inner := leaf.path[0], Leaf(leaf.path[1..], leaf.node);
      var k := KidOfToken(node, token);
      ReachedAreLeaves(Kids(node)[k].value, inner);
      KidsLeavesAreListed(Kids(node), k, inner);
      assert leaf.path == [token] + inner.path;
    }
  }

  lemma {:induction false} KidsLeavesAreListed(kids: seq<Field>, k: nat, inner: Leaf)
    requires k < |kids| && inner in Leaves(kids[k].value)
    ensures Leaf([kids[k].key] + inner.path, inner.node) in LeavesKids(kids)
    decreases k
  {
    var leaf := Leaf([kids[k].key] + inner.path, inner.node);
    var first := Under(kids[0].key, Leaves(kids[0].value));
    if k == 0 {
      var m :| 0 <= m < |Leaves(kids[0].value)| && Leaves(kids[0].value)[m] == inner;
      assert first[m] == leaf;
      assert LeavesKids(kids)[m] == leaf;
    } else {
      KidsLeavesAreListed(kids[1..], k - 1, inner);
      var m :| 0 <= m < |LeavesKids(kids[1..])| && LeavesKids(kids[1..])[m] == leaf;
      assert LeavesKids(kids)[|first| + m] == leaf;
    }
  }

  /** No two leaves share a token path. */
  lemma {:induction false} LeafPathsDiffer(node: Json, i: nat, j: nat)
    requires Unique(node) && i < j < |Leaves(node)|
    ensures Leaves(node)[i].path != Leaves(node)[j].path
    decreases Size(node), 0
  {
    if IsNonEmptyContainer(node) {
      KidsLeafPathsDiffer(Kids(node), i, j);
    }
  }

  lemma {:induction false} KidsLeafPathsDiffer(kids: seq<Field>, i: nat, j: nat)
    requires DistinctKeys(kids) && UniqueKids(kids) && i < j < |LeavesKids(kids)|
    ensures LeavesKids(kids)[i].path != LeavesKids(kids)[j].path
    decreases SizeFields(kids), 1
  {
    var inner := Leaves(kids[0].value);
    var n := |inner|;
    if j < n {
      LeafPathsDiffer(kids[0].value, i, j);
      assert ([kids[0].key] + inner[i].path)[1..] == inner[i].path;
      assert ([kids[0].key] + inner[j].path)[1..] == inner[j].path;
    } else if n <= i {
      KidsLeafPathsDiffer(kids[1..], i - n, j - n);
    } else {
      var k, m := LeafOfKid(kids[1..], j - n);
      assert LeavesKids(kids)[j].path[0] == kids[1..][k].key == kids[k + 1].key;
      assert LeavesKids(kids)[i].path[0] == kids[0].key;
    }
  }

  /** Of two token paths from these children, the first leads to an earlier place in the document: where the
      paths part, it takes the earlier child. */
  ghost predicate Earlier(kids: seq<Field>, a: seq<string>, b: seq<string>)
    decreases |a|
  {
    && a != [] && b != []
    && var i, j := FindField(kids, a[0]), FindField(kids, b[0]);
    && i < |kids| && j < |kids|
    && (i < j || (i == j && Earlier(Kids(kids[i].value), a[1..], b[1..])))
  }

  /** The leaves stand in document order. */
  lemma {:induction false} LeavesInOrder(node: Json, i: nat, j: nat)
    requires Unique(node) && i < j < |Leaves(node)|
    ensures Earlier(Kids(node), Leaves(node)[i].path, Leaves(node)[j].path)
    decreases Size(node), 0
  {
    if IsNonEmptyContainer(node) {
      KidsLeavesInOrder(Kids(node), i, j);
    }
  }

  lemma {:induction false} KidsLeavesInOrder(kids: seq<Field>, i: nat, j: nat)
    requires DistinctKeys(kids) && UniqueKids(kids) && i < j < |LeavesKids(kids)|
    ensures Earlier(kids, LeavesKids(kids)[i].path, LeavesKids(kids)[j].path)
    decreases SizeFields(kids), 1
  {
    var n := |Leaves(kids[0].value)|;
    if j < n {
      LeavesInOrder(kids[0].value, i, j);
      EarlierInFirst(kids, i, j);
    } else if n <= i {
      KidsLeavesInOrder(kids[1..], i - n, j - n);
      KidsLeafHead(kids, i);
      KidsLeafHead(kids, j);
      EarlierStays(kids, LeavesKids(kids)[i].path, LeavesKids(kids)[j].path);
    } else {
      FirstKidFirst(kids, i, j);
    }
  }

  lemma EarlierInFirst(kids: seq<Field>, i: nat, j: nat)
    requires kids != [] && i < j < |Leaves(kids[0].value)| <= |LeavesKids(kids)|
    requires var inner := Leaves(kids[0].value);
             Earlier(Kids(kids[0].value), inner[i].path, inner[j].path)
    ensures Earlier(kids, LeavesKids(kids)[i].path, LeavesKids(kids)[j].path)
  {
    var inner := Leaves(kids[0].value);
    assert LeavesKids(kids)[i].path == [kids[0].key] + inner[i].path;
    assert LeavesKids(kids)[j].path == [kids[0].key] + inner[j].path;
    assert ([kids[0].key] + inner[i].path)[1..] == inner[i].path;
    assert ([kids[0].key] + inner[j].path)[1..] == inner[j].path;
    assert FindField(kids, kids[0].key) == 0;
  }

  /** The leaves of the first child, and then those of the others. */
  lemma KidsLeafHead(kids: seq<Field>, n: nat)
    requires n < |LeavesKids(kids)|
    ensures n < |Leaves(kids[0].value)| ==> LeavesKids(kids)[n].path[..1] == [kids[0].key]
    ensures n >= |Leaves(kids[0].value)| ==> LeavesKids(kids)[n] == LeavesKids(kids[1..])[n - |Leaves(kids[0].value)|]
  {
  }

  /** A leaf of the first child stands before the leaves of all others. */
  lemma FirstKidFirst(kids: seq<Field>, i: nat, j: nat)
    requires DistinctKeys(kids) && kids != [] && i < |Leaves(kids[0].value)| <= j < |LeavesKids(kids)|
    ensures Earlier(kids, LeavesKids(kids)[i].path, LeavesKids(kids)[j].path)
  {
    KidsLeafHead(kids, i);
    KidsLeafHead(kids, j);
    var a, b := LeavesKids(kids)[i].path, LeavesKids(kids)[j].path;
    var k, m := LeafOfKid(kids[1..], j - |Leaves(kids[0].value)|);
    LaterKid(kids, k);
    assert a[0] == a[..1][0] == kids[0].key && b[0] == kids[1..][k].key;
    assert FindField(kids, a[0]) == 0;
  }

  /** The place of a later child among all children. */
  lemma LaterKid(kids: seq<Field>, k: nat)
    requires DistinctKeys(kids) && k < |kids| - 1
    ensures FindField(kids, kids[1..][k].key) == k + 1
  {
    assert kids[1..][k] == kids[k + 1];
    assert forall j :: 0 <= j < k + 1 ==> kids[j].key != kids[k + 1].key;
  }

  lemma EarlierStays(kids: seq<Field>, a: seq<string>, b: seq<string>)
    requires DistinctKeys(kids) && kids != [] && Earlier(kids[1..], a, b)
    ensures Earlier(kids, a, b)
  {
    LaterKid(kids, FindField(kids[1..], a[0]));
    LaterKid(kids, FindField(kids[1..], b[0]));
  }

  // ------------------------------------------------------------ the two views agree

  /** Reading a value by path. */
  function Lookup(document: Json, path: View): Result<LeafText> {
    var node := Resolve(document, path);
    if node.Failure? then Failure(node.error) else DescribeLeaf(node.value)
  }

  /** The `n`-th entry of a document is its `n`-th leaf. */
  lemma EntryIsLeaf(document: Json, n: nat)
    requires n < |Flatten(document, "")| || n < |Leaves(document)|
    ensures n < |Flatten(document, "")| == |Leaves(document)|
    ensures Flatten(document, "")[n].key == Print(Leaves(document)[n].path)
    ensures DescribeLeaf(Leaves(document)[n].node) ==
            Success(LeafText(Flatten(document, "")[n].value, Flatten(document, "")[n].kind))
  {
    FlattenPrints(document, "");
    assert IsEntryOf(Flatten(document, "")[n], "", Leaves(document)[n]);
    assert "" + Print(Leaves(document)[n].path) == Print(Leaves(document)[n].path);
  }

  /** The entry shows this leaf: its pointer, and a text and type that read back to its node. */
  ghost predicate Shows(e: FlatEntry, leaf: Leaf) {
    e.key == Print(leaf.path) && ReadBack(e.value, e.kind) == Some(leaf.node)
  }

  /** The entries show these leaves, one for one and in the same order. */
  ghost predicate ShowsAll(entries: seq<FlatEntry>, leaves: seq<Leaf>) {
    |entries| == |leaves| && forall n :: 0 <= n < |entries| ==> Shows(entries[n], leaves[n])
  }

  /** The flat list of any document shows its leaves in document order. */
  lemma EntriesShowLeaves(document: Json)
    ensures ShowsAll(Flatten(document, ""), Leaves(document))
  {
    FlattenPrints(document, "");
    var entries, leaves := Flatten(document, ""), Leaves(document);
    forall n | 0 <= n < |entries|
      ensures Shows(entries[n], leaves[n])
    {
      EntryIsLeaf(document, n);
      LeafReadsBack(leaves[n].node, entries[n].value, entries[n].kind);
    }
  }

  /** A path reads a text and type exactly when it leads to the leaf that they read back to. */
  lemma LookupShowsLeaf(document: Json, path: View, text: string, kind: EntryType)
    ensures Lookup(document, path) == Success(LeafText(text, kind)) <==>
            exists node :: Resolve(document, path) == Success(node) && ReadBack(text, kind) == Some(node)
  {
    var found := Resolve(document, path);
    if found.Success? {
      LeafReadsBack(found.value, text, kind);
    }
  }

  lemma LookedUpIsListed(document: Json, path: string, text: string, kind: EntryType)
    requires Unique(document) && Indexable(document)
    requires Lookup(document, View(path)) == Success(LeafText(text, kind))
    ensures FlatEntry(path, text, kind) in Flatten(document, "")
  {
    PrintParse(path);
    var leaf := Leaf(TokensOf(path).value, Resolve(document, View(path)).value);
    ReachedAreLeaves(document, leaf);
    var n :| 0 <= n < |Leaves(document)| && Leaves(document)[n] == leaf;
    EntryIsLeaf(document, n);
    assert Flatten(document, "")[n] == FlatEntry(path, text, kind);
  }

  lemma ListedIsLookedUp(document: Json, n: nat)
    requires Unique(document) && Indexable(document) && n < |Flatten(document, "")|
    ensures var e := Flatten(document, "")[n];
            Lookup(document, View(e.key)) == Success(LeafText(e.value, e.kind))
  {
    EntryIsLeaf(document, n);
    LeavesAreReached(document, n);
    ParsePrint(Leaves(document)[n].path);
  }

  /** A path reads a text and type exactly when the flat list has that entry. */
  lemma IndexAgreesWithTree(document: Json, path: string, text: string, kind: EntryType)
    requires Unique(document) && Indexable(document)
    ensures Lookup(document, View(path)) == Success(LeafText(text, kind)) <==>
            FlatEntry(path, text, kind) in Flatten(document, "")
  {
    if Lookup(document, View(path)) == Success(LeafText(text, kind)) {
      LookedUpIsListed(document, path, text, kind);
    }
    if FlatEntry(path, text, kind) in Flatten(document, "") {
      var n :| 0 <= n < |Flatten(document, "")| && Flatten(document, "")[n] == FlatEntry(path, text, kind);
      ListedIsLookedUp(document, n);
    }
  }

  /** The keys of the flat list are pairwise distinct. */
  lemma EntryKeysDiffer(document: Json, i: nat, j: nat)
    requires Unique(document) && i < j < |Flatten(document, "")|
    ensures Flatten(document, "")[i].key != Flatten(document, "")[j].key
  {
    EntryIsLeaf(document, i);
    EntryIsLeaf(document, j);
    LeafPathsDiffer(document, i, j);
    if Flatten(document, "")[i].key == Flatten(document, "")[j].key {
      PrintInjective(Leaves(document)[i].path, Leaves(document)[j].path);
    }
  }

  // ------------------------------------------------------------ few leaves mean short arrays

  lemma {:induction false} LeavesCountKids(node: Json)
    ensures |Leaves(node)| >= 1
    ensures |Kids(node)| <= |Leaves(node)|
    decreases Size(node), 0
  {
    if IsNonEmptyContainer(node) {
      LeavesKidsCount(Kids(node));
    }
  }

  lemma {:induction false} LeavesKidsCount(kids: seq<Field>)
    ensures |kids| <= |LeavesKids(kids)|
    decreases SizeFields(kids), 1
  {
    if kids != [] {
      LeavesCountKids(kids[0].value);
      LeavesKidsCount(kids[1..]);
    }
  }

  /** A document with at most 2^32 leaves has no array whose indices could not be read back. */
  lemma {:induction false} FewLeavesIndexable(node: Json)
    requires |Leaves(node)| <= TWO_32
    ensures Indexable(node)
    decreases Size(node), 0
  {
    LeavesCountKids(node);
    if IsNonEmptyContainer(node) {
      FewLeavesIndexableKids(Kids(node));
    }
  }

  lemma {:induction false} FewLeavesIndexableKids(kids: seq<Field>)
    requires |LeavesKids(kids)| <= TWO_32
    ensures IndexableKids(kids)
    decreases SizeFields(kids), 1
  {
    if kids != [] {
      FewLeavesIndexable(kids[0].value);
      FewLeavesIndexableKids(kids[1..]);
    }
  }
}
