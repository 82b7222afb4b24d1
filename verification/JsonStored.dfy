/** What an accepted text leaves behind: the collapsed document respects every limit the pass enforced on
    the tree as written. */
module JsonStored {
  import opened Numerals
  import opened Sums
  import opened JsonTree
  import opened JsonPath
  import opened JsonFlatten
  import opened JsonIndex
  import opened JsonLimits
  import opened JsonVerdict
  import opened JsonDuplicates

  // ------------------------------------------------------------ three charges

  function EachEntry(e: FlatEntry): nat { 1 }

  function KeySize(e: FlatEntry): nat { |e.key| }

  function NulInKey(e: FlatEntry): nat { if '\0' in e.key then 1 else 0 }

  lemma FirstThenRest(entries: seq<FlatEntry>, charge: FlatEntry -> nat)
    requires entries != []
    ensures Cost(entries, charge) == charge(entries[0]) + Cost(entries[1..], charge)
  {
    var first := entries[0];
    SumAppend([], first, (e: FlatEntry) => charge(e) as int);
    assert [] + [first] == [first];
    CostConcat([first], entries[1..], charge);
    assert entries == [first] + entries[1..];
  }

  lemma {:induction false} EntriesCost(entries: seq<FlatEntry>)
    ensures Cost(entries, EachEntry) == |entries|
  {
    if entries != [] {
      FirstThenRest(entries, EachEntry);
      EntriesCost(entries[1..]);
    }
  }

  lemma {:induction false} KeysCost(entries: seq<FlatEntry>)
    ensures Cost(entries, KeySize) == KeyBytes(Keys(entries))
  {
    if entries != [] {
      FirstThenRest(entries, KeySize);
      KeysCost(entries[1..]);
      assert Keys(entries)[1..] == Keys(entries[1..]);
    }
  }

  ghost predicate NulFree(entries: seq<FlatEntry>) {
    forall k :: 0 <= k < |entries| ==> '\0' !in entries[k].key
  }

  lemma {:induction false} NulFreeCost(entries: seq<FlatEntry>)
    ensures Cost(entries, NulInKey) >= 0
    ensures Cost(entries, NulInKey) == 0 <==> NulFree(entries)
  {
    if entries != [] {
      FirstThenRest(entries, NulInKey);
      NulFreeCost(entries[1..]);
      assert NulFree(entries) ==> NulFree(entries[1..]);
      if '\0' !in entries[0].key && NulFree(entries[1..]) {
        forall k | 0 <= k < |entries|
          ensures '\0' !in entries[k].key
        {
          assert k > 0 ==> entries[k] == entries[1..][k - 1];
        }
      }
    }
  }

  // ------------------------------------------------------------ keys without NUL give paths without NUL

  lemma {:induction false} EscapeNul(token: string)
    ensures '\0' in Escape(token) <==> '\0' in token
  {
    if token != "" {
      EscapeNul(token[1..]);
      assert token == [token[0]] + token[1..];
    }
  }

  lemma DecimalHasNoNul(n: nat)
    ensures '\0' !in Decimal(n)
  {
    DecimalIsCanonical(n);
  }

  lemma ArrayKeysHaveNoNul(node: Json)
    requires node.Array?
    ensures forall k :: 0 <= k < |Kids(node)| ==> '\0' !in Kids(node)[k].key
  {
    KidsAreNumbered(node);
    forall k | 0 <= k < |Kids(node)|
      ensures '\0' !in Kids(node)[k].key
    {
      DecimalHasNoNul(k);
    }
  }

  lemma {:induction false} FlattenIsNulFree(node: Json, at: string)
    requires NoNulKeys(node) && '\0' !in at
    ensures NulFree(Flatten(node, at))
    decreases Size(node), 0
  {
    if IsNonEmptyContainer(node) {
      if node.Array? {
        ArrayKeysHaveNoNul(node);
      }
      FlattenKidsIsNulFree(Kids(node), node.Array?, at);
    }
  }

  lemma {:induction false} FlattenKidsIsNulFree(kids: seq<Field>, inArray: bool, at: string)
    requires NoNulKeysIn(kids, inArray) && '\0' !in at
    requires inArray ==> forall k :: 0 <= k < |kids| ==> '\0' !in kids[k].key
    ensures NulFree(FlattenKids(kids, at))
    decreases SizeFields(kids), 1
  {
    if kids != [] {
      EscapeNul(kids[0].key);
      FlattenIsNulFree(kids[0].value, ChildPath(at, kids[0].key));
      FlattenKidsIsNulFree(kids[1..], inArray, at);
    }
  }

  // ------------------------------------------------------------ what is stored

  /** The limits, told of a finished document. */
  ghost predicate WithinLimits(document: Json) {
    var entries := Flatten(document, "");
    |entries| <= MAX_ENTRIES && KeyBytes(Keys(entries)) <= MAX_KEY_BYTES && NulFree(entries)
  }

  /** The counters of the pass bound what is stored: repeated keys can only make it cheaper. */
  lemma StoredCostsNoMore(raw: Json)
    ensures Verdict(raw).Success? ==>
              && |Flatten(Collapse(raw), "")| <= Verdict(raw).value.entryCount
              && KeyBytes(Keys(Flatten(Collapse(raw), ""))) <= Verdict(raw).value.keyTotal
              && NulFree(Flatten(Collapse(raw), ""))
  {
    var written, kept := Flatten(raw, ""), Flatten(Collapse(raw), "");
    LimitPassAccepts(raw);
    CollapseCostsNoMore(raw, "", EachEntry);
    EntriesCost(written);
    EntriesCost(kept);
    CollapseCostsNoMore(raw, "", KeySize);
    KeysCost(written);
    KeysCost(kept);
    if Verdict(raw).Success? {
      FlattenIsNulFree(raw, "");
    }
    CollapseCostsNoMore(raw, "", NulInKey);
    NulFreeCost(written);
    NulFreeCost(kept);
  }

  /** Without repeated keys the pass has counted exactly what is stored. */
  lemma CountersAreExactWithoutRepeats(raw: Json)
    requires Unique(raw)
    ensures Collapse(raw) == raw
    ensures Verdict(raw).Success? ==>
              && Verdict(raw).value.entryCount == |Flatten(Collapse(raw), "")|
              && Verdict(raw).value.keyTotal == KeyBytes(Keys(Flatten(Collapse(raw), "")))
  {
    CollapseUniqueIsIdentity(raw);
    LimitPassAccepts(raw);
  }

  /** Every accepted tree is stored as a document without repeated keys, within the limits, whose array
      indices can all be read back. */
  lemma AcceptedIsSound(raw: Json)
    ensures Verdict(raw).Success? ==>
              Unique(Collapse(raw)) && Indexable(Collapse(raw)) && WithinLimits(Collapse(raw))
  {
    CollapseIsUnique(raw);
    LimitPassAccepts(raw);
    StoredCostsNoMore(raw);
    FlattenPrints(Collapse(raw), "");
    if Verdict(raw).Success? {
      FewLeavesIndexable(Collapse(raw));
    }
  }
}
