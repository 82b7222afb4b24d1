/** Repeated object keys (docs/json-flatten.md, "Duplicate object keys"): the parser keeps the last value at
    the position of the first occurrence. What is stored never costs more than what the limit pass charged. */
module JsonDuplicates {
  import opened Sums
  import opened JsonTree
  import opened JsonPath
  import opened JsonFlatten

  /** An assignment to a field of an ordered object. */
  function Put(fields: seq<Field>, key: string, value: Json): seq<Field> {
    var i := FindField(fields, key);
    if i < |fields| then fields[i := Field(key, value)] else fields + [Field(key, value)]
  }

  /** The document a parser builds from a tree as written. */
  function Collapse(node: Json): Json
    decreases Size(node), 0
  {
    match node
    case Array(elems) => Array(CollapseElems(elems))
    case Object(fields) => Object(PutAll([], fields))
    case _ => node
  }

  function CollapseElems(elems: seq<Json>): (r: seq<Json>)
    ensures |r| == |elems|
    decreases SizeElems(elems), 1
  {
    if elems == [] then [] else [Collapse(elems[0])] + CollapseElems(elems[1..])
  }

  /** Fields assigned one after the other. */
  function PutAll(done: seq<Field>, fields: seq<Field>): seq<Field>
    decreases SizeFields(fields), 1
  {
    if fields == [] then done
    else PutAll(Put(done, fields[0].key, Collapse(fields[0].value)), fields[1..])
  }

  // ------------------------------------------------------------ a document has no repeated key

  lemma {:induction false} UniqueFromAll(kids: seq<Field>)
    requires forall k :: 0 <= k < |kids| ==> Unique(kids[k].value)
    ensures UniqueKids(kids)
    decreases |kids|
  {
    if kids != [] {
      forall k | 0 <= k < |kids[1..]|
        ensures Unique(kids[1..][k].value)
      {
        assert kids[1..][k] == kids[k + 1];
      }
      UniqueFromAll(kids[1..]);
    }
  }

  /** What stands at each place after an assignment. */
  lemma PutAt(fields: seq<Field>, key: string, value: Json, k: nat)
    requires k < |Put(fields, key, value)|
    ensures Put(fields, key, value)[k] ==
            if k == FindField(fields, key) then Field(key, value) else fields[k]
    ensures k != FindField(fields, key) ==> k < |fields| && fields[k] == Put(fields, key, value)[k]
  {
  }

  lemma PutKeepsDistinct(fields: seq<Field>, key: string, value: Json)
    requires DistinctKeys(fields)
    ensures DistinctKeys(Put(fields, key, value))
  {
    var out := Put(fields, key, value);
    var at := FindField(fields, key);
    forall i, j | 0 <= i < j < |out|
      ensures out[i].key != out[j].key
    {
      PutAt(fields, key, value, i);
      PutAt(fields, key, value, j);
      if i != at && j != at {
        assert fields[i].key != fields[j].key;
      } else if at < |fields| {
        assert fields[i].key != fields[j].key;
      }
    }
  }

  lemma PutKeepsUnique(fields: seq<Field>, key: string, value: Json)
    requires UniqueKids(fields) && Unique(value)
    ensures UniqueKids(Put(fields, key, value))
  {
    var out := Put(fields, key, value);
    forall k | 0 <= k < |out|
      ensures Unique(out[k].value)
    {
      PutAt(fields, key, value, k);
      if k != FindField(fields, key) {
        UniqueKid(fields, k);
      }
    }
    UniqueFromAll(out);
  }

  lemma {:induction false} CollapseIsUnique(node: Json)
    ensures Unique(Collapse(node))
    decreases Size(node), 0
  {
    match node {
      case Array(elems) =>
        IndexedDistinct(CollapseElems(elems));
        CollapseElemsUnique(elems, 0);
      case Object(fields) =>
        PutAllUnique([], fields);
      case _ =>
    }
  }

  lemma {:induction false} CollapseElemsUnique(elems: seq<Json>, from: nat)
    ensures UniqueKids(Indexed(CollapseElems(elems), from))
    decreases SizeElems(elems), 1
  {
    if elems != [] {
      CollapseIsUnique(elems[0]);
      CollapseElemsUnique(elems[1..], from + 1);
      var kids := Indexed(CollapseElems(elems), from);
      assert CollapseElems(elems)[1..] == CollapseElems(elems[1..]);
      assert kids[1..] == Indexed(CollapseElems(elems[1..]), from + 1);
    }
  }

  lemma {:induction false} PutAllUnique(done: seq<Field>, fields: seq<Field>)
    requires DistinctKeys(done) && UniqueKids(done)
    ensures DistinctKeys(PutAll(done, fields)) && UniqueKids(PutAll(done, fields))
    decreases SizeFields(fields), 1
  {
    if fields != [] {
      CollapseIsUnique(fields[0].value);
      PutKeepsDistinct(done, fields[0].key, Collapse(fields[0].value));
      PutKeepsUnique(done, fields[0].key, Collapse(fields[0].value));
      PutAllUnique(Put(done, fields[0].key, Collapse(fields[0].value)), fields[1..]);
    }
  }

  // ------------------------------------------------------------ which value wins, and where it stands

  /** The position of the last field with this key, or the field count. */
  function FindLast(fields: seq<Field>, key: string): (i: nat)
    ensures i <= |fields|
    ensures i < |fields| ==> fields[i].key == key
    ensures forall j :: i < j < |fields| ==> fields[j].key != key
    ensures i == |fields| ==> forall j :: 0 <= j < |fields| ==> fields[j].key != key
  {
    if fields == [] then 0
    else
      var last := |fields| - 1;
      if fields[last].key == key then last
      else
        var k := FindLast(fields[..last], key);
        assert forall j :: 0 <= j < last ==> fields[j] == fields[..last][j];
        if k == last then |fields| else k
  }

  lemma {:induction false} PutAllSnoc(done: seq<Field>, fields: seq<Field>, f: Field)
    ensures PutAll(done, fields + [f]) == Put(PutAll(done, fields), f.key, Collapse(f.value))
    decreases |fields|
  {
    if fields == [] {
      assert ([] + [f])[1..] == [];
    } else {
      assert (fields + [f])[1..] == fields[1..] + [f];
      PutAllSnoc(Put(done, fields[0].key, Collapse(fields[0].value)), fields[1..], f);
    }
  }

  /** The collapsed field holds the collapsed value of the last occurrence of its key. */
  ghost predicate LastWins(written: seq<Field>, f: Field) {
    && FindLast(written, f.key) < |written|
    && f.value == Collapse(written[FindLast(written, f.key)].value)
  }

  /** Collapsed fields: the keys are those written, each with its last value, in order of first occurrence. */
  ghost predicate Collapsed(written: seq<Field>, kept: seq<Field>) {
    && (forall i :: 0 <= i < |kept| ==> LastWins(written, kept[i]))
    && (forall k :: 0 <= k < |written| ==> FindField(kept, written[k].key) < |kept|)
    && (forall i, j :: 0 <= i < j < |kept| ==> FindField(written, kept[i].key) < FindField(written, kept[j].key))
  }

  lemma FieldAfterSnoc(written: seq<Field>, f: Field, key: string)
    ensures FindField(written + [f], key) ==
            if FindField(written, key) < |written| then FindField(written, key)
            else if f.key == key then |written| else |written| + 1
  {
    var all, i, w := written + [f], FindField(written + [f], key), FindField(written, key);
    assert all[|written|] == f;
    assert w < |written| ==> all[w] == written[w];
    assert i < |written| ==> all[i] == written[i];
  }

  lemma LastAfterSnoc(written: seq<Field>, f: Field, key: string)
    ensures FindLast(written + [f], key) ==
            if f.key == key then |written|
            else if FindLast(written, key) < |written| then FindLast(written, key) else |written| + 1
  {
    assert (written + [f])[..|written|] == written;
  }

  /** Some field has the key, or none has: the first and the last occurrence exist together. */
  lemma FirstIffLast(written: seq<Field>, key: string)
    ensures FindField(written, key) < |written| <==> FindLast(written, key) < |written|
  {
    var i, j := FindField(written, key), FindLast(written, key);
    assert i < |written| ==> written[i].key == key;
    assert j < |written| ==> written[j].key == key;
  }

  /** Kept fields have different keys. */
  lemma KeptDiffer(written: seq<Field>, kept: seq<Field>, i: nat, j: nat)
    requires Collapsed(written, kept) && i < j < |kept|
    ensures kept[i].key != kept[j].key
  {
    assert FindField(written, kept[i].key) < FindField(written, kept[j].key);
  }

  lemma PutLastWins(written: seq<Field>, kept: seq<Field>, f: Field, i: nat)
    requires Collapsed(written, kept) && i < |Put(kept, f.key, Collapse(f.value))|
    ensures LastWins(written + [f], Put(kept, f.key, Collapse(f.value))[i])
  {
    var out := Put(kept, f.key, Collapse(f.value));
    PutAt(kept, f.key, Collapse(f.value), i);
    LastAfterSnoc(written, f, out[i].key);
    assert (written + [f])[|written|] == f;
    if i != FindField(kept, f.key) {
      assert LastWins(written, kept[i]);
      if FindField(kept, f.key) < i {
        KeptDiffer(written, kept, FindField(kept, f.key), i);
      }
      var last := FindLast(written, out[i].key);
      assert (written + [f])[last] == written[last];
    }
  }

  lemma PutKeepsKeys(written: seq<Field>, kept: seq<Field>, f: Field, k: nat)
    requires Collapsed(written, kept) && k < |written + [f]|
    ensures FindField(Put(kept, f.key, Collapse(f.value)), (written + [f])[k].key) < |Put(kept, f.key, Collapse(f.value))|
  {
    var out, at, key := Put(kept, f.key, Collapse(f.value)), FindField(kept, f.key), (written + [f])[k].key;
    assert out[at] == Field(f.key, Collapse(f.value));
    if k < |written| {
      var m := FindField(kept, written[k].key);
      assert out[m].key == key;
    }
  }

  lemma WrittenIsKept(written: seq<Field>, kept: seq<Field>, key: string)
    requires Collapsed(written, kept)
    ensures FindField(written, key) < |written| ==> FindField(kept, key) < |kept|
  {
    var k := FindField(written, key);
    assert k < |written| ==> written[k].key == key;
  }

  lemma PutKeepsOrder(written: seq<Field>, kept: seq<Field>, f: Field, i: nat, j: nat)
    requires Collapsed(written, kept) && i < j < |Put(kept, f.key, Collapse(f.value))|
    ensures FindField(written + [f], Put(kept, f.key, Collapse(f.value))[i].key) <
            FindField(written + [f], Put(kept, f.key, Collapse(f.value))[j].key)
  {
    var out := Put(kept, f.key, Collapse(f.value));
    PutAt(kept, f.key, Collapse(f.value), i);
    PutAt(kept, f.key, Collapse(f.value), j);
    FieldAfterSnoc(written, f, out[i].key);
    FieldAfterSnoc(written, f, out[j].key);
    assert LastWins(written, kept[i]);
    FirstIffLast(written, kept[i].key);
    if j < |kept| {
      assert FindField(written, kept[i].key) < FindField(written, kept[j].key);
      assert LastWins(written, kept[j]);
      FirstIffLast(written, kept[j].key);
    } else {
      WrittenIsKept(written, kept, f.key);
    }
  }

  lemma PutKeepsCollapsed(written: seq<Field>, kept: seq<Field>, f: Field)
    requires Collapsed(written, kept)
    ensures Collapsed(written + [f], Put(kept, f.key, Collapse(f.value)))
  {
    var all, out := written + [f], Put(kept, f.key, Collapse(f.value));
    forall i | 0 <= i < |out|
      ensures LastWins(all, out[i])
    {
      PutLastWins(written, kept, f, i);
    }
    forall k | 0 <= k < |all|
      ensures FindField(out, all[k].key) < |out|
    {
      PutKeepsKeys(written, kept, f, k);
    }
    forall i, j | 0 <= i < j < |out|
      ensures FindField(all, out[i].key) < FindField(all, out[j].key)
    {
      PutKeepsOrder(written, kept, f, i, j);
    }
  }

  lemma CollapsedSnoc(written: seq<Field>, f: Field)
    requires Collapsed(written, PutAll([], written))
    ensures Collapsed(written + [f], PutAll([], written + [f]))
  {
    PutAllSnoc([], written, f);
    PutKeepsCollapsed(written, PutAll([], written), f);
  }

  /** The last value wins, and its field keeps the place of the first occurrence of the key. */
  lemma {:induction false} LastValueFirstPlace(written: seq<Field>)
    ensures Collapsed(written, PutAll([], written))
  {
    if written != [] {
      var front, f := written[..|written| - 1], written[|written| - 1];
      LastValueFirstPlace(front);
      CollapsedSnoc(front, f);
      assert written == front + [f];
    }
  }

  /** A tree without repeated keys is left as it is. */
  lemma {:induction false} CollapseUniqueIsIdentity(node: Json)
    requires Unique(node)
    ensures Collapse(node) == node
    decreases Size(node), 0
  {
    match node {
      case Array(elems) => CollapseElemsIdentity(elems, 0);
      case Object(fields) =>
        PutAllIdentity([], fields);
        assert [] + fields == fields;
      case _ =>
    }
  }

  lemma {:induction false} CollapseElemsIdentity(elems: seq<Json>, from: nat)
    requires UniqueKids(Indexed(elems, from))
    ensures CollapseElems(elems) == elems
    decreases SizeElems(elems), 1
  {
    if elems != [] {
      assert Indexed(elems, from)[1..] == Indexed(elems[1..], from + 1);
      CollapseUniqueIsIdentity(elems[0]);
      CollapseElemsIdentity(elems[1..], from + 1);
    }
  }

  lemma {:induction false} PutAllIdentity(done: seq<Field>, fields: seq<Field>)
    requires DistinctKeys(done + fields) && UniqueKids(fields)
    ensures PutAll(done, fields) == done + fields
    decreases SizeFields(fields), 1
  {
    if fields == [] {
      assert done + fields == done;
    } else {
      var f := fields[0];
      CollapseUniqueIsIdentity(f.value);
      assert (done + fields)[|done|] == f;
      forall j | 0 <= j < |done|
        ensures done[j].key != f.key
      {
        assert (done + fields)[j] == done[j];
      }
      assert Put(done, f.key, f.value) == done + [f];
      assert (done + [f]) + fields[1..] == done + fields;
      PutAllIdentity(done + [f], fields[1..]);
    }
  }

  // ------------------------------------------------------------ collapsing never costs more

  /** The cost of some entries, for any charge per entry. */
  ghost function Cost(entries: seq<FlatEntry>, charge: FlatEntry -> nat): int {
    Sum(entries, (e: FlatEntry) => charge(e) as int)
  }

  lemma CostConcat(a: seq<FlatEntry>, b: seq<FlatEntry>, charge: FlatEntry -> nat)
    ensures Cost(a + b, charge) == Cost(a, charge) + Cost(b, charge)
  {
    SumConcat(a, b, (e: FlatEntry) => charge(e) as int);
  }

  lemma CostNonNegative(a: seq<FlatEntry>, charge: FlatEntry -> nat)
    ensures 0 <= Cost(a, charge)
  {
    SumNonNegative(a, (e: FlatEntry) => charge(e) as int);
  }

  lemma {:induction false} KidsConcat(a: seq<Field>, b: seq<Field>, at: string, charge: FlatEntry -> nat)
    ensures Cost(FlattenKids(a + b, at), charge) == Cost(FlattenKids(a, at), charge) + Cost(FlattenKids(b, at), charge)
  {
    if a == [] {
      assert a + b == b;
    } else {
      var first := Flatten(a[0].value, ChildPath(at, a[0].key));
      assert (a + b)[1..] == a[1..] + b;
      KidsConcat(a[1..], b, at, charge);
      CostConcat(first, FlattenKids(a[1..] + b, at), charge);
      CostConcat(first, FlattenKids(a[1..], at), charge);
    }
  }

  lemma KidCost(f: Field, at: string, charge: FlatEntry -> nat)
    ensures Cost(FlattenKids([f], at), charge) == Cost(Flatten(f.value, ChildPath(at, f.key)), charge)
  {
    assert [f][1..] == [];
    CostConcat(Flatten(f.value, ChildPath(at, f.key)), [], charge);
  }

  /** The cost of fields with one of them in the middle. */
  lemma SplitCost(front: seq<Field>, f: Field, back: seq<Field>, at: string, charge: FlatEntry -> nat)
    ensures Cost(FlattenKids(front + ([f] + back), at), charge) ==
            Cost(FlattenKids(front, at), charge) + Cost(Flatten(f.value, ChildPath(at, f.key)), charge)
            + Cost(FlattenKids(back, at), charge)
  {
    KidCost(f, at, charge);
    KidsConcat(front, [f] + back, at, charge);
    KidsConcat([f], back, at, charge);
  }

  /** An assignment costs at most its own value: a replaced value is no longer charged. */
  lemma PutCost(fields: seq<Field>, key: string, value: Json, at: string, charge: FlatEntry -> nat)
    ensures Cost(FlattenKids(Put(fields, key, value), at), charge) <=
            Cost(FlattenKids(fields, at), charge) + Cost(Flatten(value, ChildPath(at, key)), charge)
  {
    var i, f := FindField(fields, key), Field(key, value);
    if i < |fields| {
      var front, back := fields[..i], fields[i + 1..];
      assert fields == front + ([fields[i]] + back);
      assert Put(fields, key, value) == front + ([f] + back);
      SplitCost(front, fields[i], back, at, charge);
      SplitCost(front, f, back, at, charge);
      CostNonNegative(Flatten(fields[i].value, ChildPath(at, fields[i].key)), charge);
    } else {
      KidsConcat(fields, [f], at, charge);
      KidCost(f, at, charge);
    }
  }

  /** Whatever entries are charged for, the collapsed document costs at most the tree as written. */
  lemma {:induction false} CollapseCostsNoMore(node: Json, at: string, charge: FlatEntry -> nat)
    ensures Cost(Flatten(Collapse(node), at), charge) <= Cost(Flatten(node, at), charge)
    decreases Size(node), 0
  {
    match node {
      case Array(elems) => CollapseElemsCost(elems, 0, at, charge);
      case Object(fields) =>
        PutAllCost([], fields, at, charge);
        PutAllNonEmpty([], fields);
      case _ =>
    }
  }

  lemma {:induction false} PutAllNonEmpty(done: seq<Field>, fields: seq<Field>)
    ensures PutAll(done, fields) == [] <==> done == [] && fields == []
    decreases |fields|
  {
    if fields != [] {
      PutAllNonEmpty(Put(done, fields[0].key, Collapse(fields[0].value)), fields[1..]);
    }
  }

  lemma {:induction false} CollapseElemsCost(elems: seq<Json>, from: nat, at: string, charge: FlatEntry -> nat)
    ensures Cost(FlattenKids(Indexed(CollapseElems(elems), from), at), charge) <=
            Cost(FlattenKids(Indexed(elems, from), at), charge)
    decreases SizeElems(elems), 1
  {
    if elems != [] {
      var kids, kids2 := Indexed(elems, from), Indexed(CollapseElems(elems), from);
      var path := ChildPath(at, kids[0].key);
      assert CollapseElems(elems)[1..] == CollapseElems(elems[1..]);
      assert kids[1..] == Indexed(elems[1..], from + 1);
      assert kids2[1..] == Indexed(CollapseElems(elems[1..]), from + 1);
      CollapseCostsNoMore(elems[0], path, charge);
      CollapseElemsCost(elems[1..], from + 1, at, charge);
      CostConcat(Flatten(elems[0], path), FlattenKids(kids[1..], at), charge);
      CostConcat(Flatten(Collapse(elems[0]), path), FlattenKids(kids2[1..], at), charge);
    }
  }

  lemma {:induction false} PutAllCost(done: seq<Field>, fields: seq<Field>, at: string, charge: FlatEntry -> nat)
    ensures Cost(FlattenKids(PutAll(done, fields), at), charge) <=
            Cost(FlattenKids(done, at), charge) + Cost(FlattenKids(fields, at), charge)
    decreases SizeFields(fields), 1
  {
    if fields != [] {
      var f, path := fields[0], ChildPath(at, fields[0].key);
      CollapseCostsNoMore(f.value, path, charge);
      PutCost(done, f.key, Collapse(f.value), at, charge);
      PutAllCost(Put(done, f.key, Collapse(f.value)), fields[1..], at, charge);
      CostConcat(Flatten(f.value, path), FlattenKids(fields[1..], at), charge);
    }
  }
}
