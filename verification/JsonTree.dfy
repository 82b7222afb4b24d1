/** JSON documents (src/core/json-value.h): objects keep the order of their fields. A tree may repeat a key
    as text can; a document cannot. Number text is opaque. */
module JsonTree {
  import opened Numerals

  datatype Field = Field(key: string, value: Json)

  datatype Json =
    | Null
    | Bool(b: bool)
    | Number(text: string)
    | String(s: string)
    | Array(elems: seq<Json>)
    | Object(fields: seq<Field>)

  /** The node count, by which recursion over children ends. */
  function Size(node: Json): nat
    decreases node, 0
  {
    match node
    case Array(elems) => 1 + SizeElems(elems)
    case Object(fields) => 1 + SizeFields(fields)
    case _ => 1
  }

  function SizeElems(elems: seq<Json>): nat
    decreases elems, 1
  {
    if elems == [] then 0 else 1 + Size(elems[0]) + SizeElems(elems[1..])
  }

  function SizeFields(fields: seq<Field>): nat
    decreases fields, 1
  {
    if fields == [] then 0 else 1 + Size(fields[0].value) + SizeFields(fields[1..])
  }

  predicate IsContainer(node: Json) { node.Array? || node.Object? }

  /** Array elements as fields under their indices, from index `from` on. */
  function Indexed(elems: seq<Json>, from: nat): (r: seq<Field>)
    ensures |r| == |elems|
    ensures SizeFields(r) == SizeElems(elems)
    decreases |elems|
  {
    if elems == [] then [] else [Field(Decimal(from), elems[0])] + Indexed(elems[1..], from + 1)
  }

  lemma {:induction false} IndexedAt(elems: seq<Json>, from: nat, k: nat)
    requires k < |elems|
    ensures Indexed(elems, from)[k] == Field(Decimal(from + k), elems[k])
    decreases |elems|
  {
    if k > 0 {
      IndexedAt(elems[1..], from + 1, k - 1);
    }
  }

  /** The children of a container with the path token that leads to each. */
  function Kids(node: Json): (r: seq<Field>)
    ensures SizeFields(r) < Size(node)
    ensures node.Array? ==> |r| == |node.elems|
  {
    match node
    case Array(elems) => Indexed(elems, 0)
    case Object(fields) => fields
    case _ => []
  }

  predicate IsNonEmptyContainer(node: Json) { Kids(node) != [] }

  lemma {:induction false} SizeOfKid(kids: seq<Field>, k: nat)
    requires k < |kids|
    ensures Size(kids[k].value) < SizeFields(kids)
    decreases k
  {
    if k > 0 {
      SizeOfKid(kids[1..], k - 1);
    }
  }

  predicate DistinctKeys(kids: seq<Field>) {
    forall i, j :: 0 <= i < j < |kids| ==> kids[i].key != kids[j].key
  }

  /** A document: no object repeats a key, at any depth. */
  predicate Unique(node: Json)
    decreases Size(node)
  {
    DistinctKeys(Kids(node)) && UniqueKids(Kids(node))
  }

  predicate UniqueKids(kids: seq<Field>)
    decreases SizeFields(kids)
  {
    kids == [] || (Unique(kids[0].value) && UniqueKids(kids[1..]))
  }

  lemma {:induction false} UniqueKid(kids: seq<Field>, k: nat)
    requires UniqueKids(kids) && k < |kids|
    ensures Unique(kids[k].value)
    decreases k
  {
    if k > 0 {
      UniqueKid(kids[1..], k - 1);
    }
  }

  /** The keys of an array's children are its indices, so they are always distinct. */
  lemma IndexedDistinct(elems: seq<Json>)
    ensures DistinctKeys(Indexed(elems, 0))
  {
    var kids := Indexed(elems, 0);
    forall i, j | 0 <= i < j < |kids|
      ensures kids[i].key != kids[j].key
    {
      IndexedAt(elems, 0, i);
      IndexedAt(elems, 0, j);
      if Decimal(i) == Decimal(j) {
        DecimalInjective(i, j);
      }
    }
  }
}
