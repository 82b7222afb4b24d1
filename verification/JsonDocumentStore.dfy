/** The document store of src/mapping/json-document-store.cpp: eight slots updated in place, seen from outside
    as a map from live ids to flattened documents. Each method body is one region under the store's mutex. */
module JsonDocumentStore {
  import opened BufferCopy
  import opened Statuses
  import opened IdMint
  import opened JsonTree
  import opened JsonPath
  import opened JsonFlatten
  import opened JsonIndex
  import opened JsonPipeline
  import opened JsonQuotes
  import opened JsonReading

  const SLOT_COUNT := 8

  datatype Slot = Slot(occupied: bool, id: u32, result: FlattenResult)

  const EMPTY_SLOT := Slot(false, 0, FlattenResult(Null, []))

  // ------------------------------------------------------------ slots as a map

  ghost predicate Distinct(slots: seq<Slot>) {
    forall i, j :: 0 <= i < j < |slots| && slots[i].occupied && slots[j].occupied ==> slots[i].id != slots[j].id
  }

  /** The documents held by the slots, by id. */
  ghost function Held(slots: seq<Slot>): map<u32, FlattenResult> {
    if slots == [] then map[]
    else
      var last := slots[|slots| - 1];
      var others := Held(slots[..|slots| - 1]);
      if last.occupied then others[last.id := last.result] else others
  }

  lemma {:induction false} HeldAt(slots: seq<Slot>, i: nat)
    requires Distinct(slots) && i < |slots| && slots[i].occupied
    ensures slots[i].id in Held(slots) && Held(slots)[slots[i].id] == slots[i].result
  {
    var last := |slots| - 1;
    if i < last {
      HeldAt(slots[..last], i);
    }
  }

  lemma {:induction false} HeldBy(slots: seq<Slot>, id: u32) returns (i: nat)
    requires id in Held(slots)
    ensures i < |slots| && slots[i].occupied && slots[i].id == id
  {
    var last := |slots| - 1;
    if slots[last].occupied && slots[last].id == id {
      i := last;
    } else {
      i := HeldBy(slots[..last], id);
    }
  }

  /** No slot with the id: no document with the id. */
  lemma NotHeld(slots: seq<Slot>, id: u32)
    requires forall i :: 0 <= i < |slots| ==> !(slots[i].occupied && slots[i].id == id)
    ensures id !in Held(slots)
  {
    if id in Held(slots) {
      var i := HeldBy(slots, id);
    }
  }

  lemma {:induction false} FullSize(slots: seq<Slot>)
    requires Distinct(slots) && forall i :: 0 <= i < |slots| ==> slots[i].occupied
    ensures |Held(slots)| == |slots|
  {
    if slots != [] {
      var last := |slots| - 1;
      FullSize(slots[..last]);
      NotHeld(slots[..last], slots[last].id);
    }
  }

  lemma {:induction false} HeldSize(slots: seq<Slot>)
    ensures |Held(slots)| <= |slots|
  {
    if slots != [] {
      HeldSize(slots[..|slots| - 1]);
    }
  }

  /** A free slot means room for one more. */
  lemma {:induction false} RoomSize(slots: seq<Slot>, i: nat)
    requires i < |slots| && !slots[i].occupied
    ensures |Held(slots)| < |slots|
  {
    var last := |slots| - 1;
    if i == last {
      HeldSize(slots[..last]);
    } else {
      RoomSize(slots[..last], i);
    }
  }

  lemma {:induction false} FillFree(slots: seq<Slot>, i: nat, id: u32, result: FlattenResult)
    requires i < |slots| && !slots[i].occupied && id !in Held(slots)
    ensures Held(slots[i := Slot(true, id, result)]) == Held(slots)[id := result]
  {
    var last, filled := |slots| - 1, slots[i := Slot(true, id, result)];
    if i == last {
      assert filled[..last] == slots[..last];
    } else {
      assert filled[..last] == slots[..last][i := Slot(true, id, result)];
      FillFree(slots[..last], i, id, result);
    }
  }

  lemma {:induction false} ClearHeld(slots: seq<Slot>, i: nat)
    requires Distinct(slots) && i < |slots| && slots[i].occupied
    ensures Held(slots[i := EMPTY_SLOT]) == Held(slots) - {slots[i].id}
    ensures |Held(slots[i := EMPTY_SLOT])| == |Held(slots)| - 1
  {
    var last, cleared := |slots| - 1, slots[i := EMPTY_SLOT];
    HeldAt(slots, i);
    if i == last {
      assert cleared[..last] == slots[..last];
      NotHeld(slots[..last], slots[i].id);
    } else {
      assert cleared[..last] == slots[..last][i := EMPTY_SLOT];
      ClearHeld(slots[..last], i);
    }
    var before, after := Held(slots), Held(cleared);
    assert after == before - {slots[i].id};
    assert before == after[slots[i].id := slots[i].result];
  }

  lemma {:induction false} NoneHeld(slots: seq<Slot>)
    requires forall i :: 0 <= i < |slots| ==> !slots[i].occupied
    ensures Held(slots) == map[]
  {
    if slots != [] {
      NoneHeld(slots[..|slots| - 1]);
    }
  }

  /** The record of a mint from `next` among these live ids. */
  ghost function MintOf(next: u32, live: set<u32>): Mint {
    Mint(next, live, FirstGap(next, live + {0}), IdMint.MintId(next, live))
  }

  // ------------------------------------------------------------ what reads return

  ghost function EntryAt(documents: map<u32, FlattenResult>, id: u32, index: u32): Result<FlatEntry> {
    if id !in documents then Failure(UnknownDocumentId)
    else if index >= |documents[id].entries| then Failure(IndexOutOfRange)
    else Success(documents[id].entries[index])
  }

  ghost function ValueAt(documents: map<u32, FlattenResult>, id: u32, path: View): Result<LeafText> {
    if id !in documents then Failure(UnknownDocumentId) else Lookup(documents[id].document, path)
  }

  /** Both buffers must be there before either is judged too small. */
  function CopyBothStatus(entry: FlatEntry, keySize: u32, valueSize: u32): Status {
    if keySize == 0 || valueSize == 0 then InvalidArgument
    else if |entry.key| >= keySize || |entry.value| >= valueSize then BufferTooSmall
    else Ok
  }

  /** Reading by index and reading by path see the same leaves of a flattened document. */
  lemma ReadsAgree(documents: map<u32, FlattenResult>, id: u32, path: string, text: string, kind: EntryType)
    requires id in documents ==> Sound(documents[id])
    ensures ValueAt(documents, id, View(path)) == Success(LeafText(text, kind)) <==>
            exists index: u32 :: EntryAt(documents, id, index) == Success(FlatEntry(path, text, kind))
  {
    if ValueAt(documents, id, View(path)) == Success(LeafText(text, kind)) {
      var entries := documents[id].entries;
      assert FlatEntry(path, text, kind) in entries;
      var k :| 0 <= k < |entries| && entries[k] == FlatEntry(path, text, kind);
      var index: u32 := k;
      assert EntryAt(documents, id, index) == Success(FlatEntry(path, text, kind));
    }
  }

  /** An index names the leaf at that place of the document: the entry carries its printed path, and a text and
      type that read back to it. */
  lemma EntryIsLeafAtIndex(documents: map<u32, FlattenResult>, id: u32, index: u32)
    requires id in documents && Sound(documents[id])
    ensures EntryAt(documents, id, index).Success? <==> index < |Leaves(documents[id].document)|
    ensures EntryAt(documents, id, index).Success? ==>
              Shows(EntryAt(documents, id, index).value, Leaves(documents[id].document)[index])
  {
  }

  lemma SoundIsShort(r: FlattenResult)
    requires Sound(r)
    ensures |r.entries| <= 10000
  {
  }

  /** Every index below the count reads an entry, and no other does: the count is never cut off to 32 bits. */
  lemma CountBoundsIndex(documents: map<u32, FlattenResult>, id: u32, index: u32)
    requires id in documents && Sound(documents[id])
    ensures EntryAt(documents, id, index) == Failure(IndexOutOfRange) <==> index >= |documents[id].entries| % TWO_32
  {
    SoundIsShort(documents[id]);
    CutOff(|documents[id].entries|);
  }

  lemma CutOff(n: nat)
    requires n <= 10000
    ensures n % TWO_32 == n
  {
  }

  /** In a stored text an index names the leaf at that place of the text as written. */
  lemma StoredTextReads(documents: map<u32, FlattenResult>, id: u32, text: string, parse: string -> Parsed, raw: Json,
                        index: u32)
    requires id in documents && FlattenText(text, parse) == Success(documents[id])
    requires parse(Convert(Outside, text)) == Tree(raw)
    ensures var leaves := WrittenLeaves(raw);
            && (EntryAt(documents, id, index).Success? <==> index < |leaves|)
            && (index < |leaves| ==> Shows(EntryAt(documents, id, index).value, leaves[index]))
  {
    AcceptedTextIsListed(text, parse, raw, documents[id]);
  }

  /** A value read by path is the leaf that the path leads to. */
  lemma ValueIsLeafAtPath(documents: map<u32, FlattenResult>, id: u32, path: View, text: string, kind: EntryType)
    requires id in documents
    ensures ValueAt(documents, id, path) == Success(LeafText(text, kind)) <==>
            exists node :: Resolve(documents[id].document, path) == Success(node) && ReadBack(text, kind) == Some(node)
  {
    LookupShowsLeaf(documents[id].document, path, text, kind);
  }

  // ------------------------------------------------------------ copying an entry out

  ghost function Buffers(key: array?<char>, value: array?<char>): set<object> {
    (if key == null then {} else {key}) + (if value == null then {} else {value})
  }

  /** Both texts, or two empty buffers. One buffer passed twice ends up with the value. */
  method CopyEntryTexts(entry: FlatEntry, key: array?<char>, keySize: u32, value: array?<char>, valueSize: u32)
    returns (status: Status)
    requires (key != null ==> keySize <= key.Length) && (value != null ==> valueSize <= value.Length)
    modifies Buffers(key, value)
    ensures status == CopyBothStatus(entry, Capacity(key, keySize), Capacity(value, valueSize))
    ensures status == Ok ==> Holds(value, entry.value)
    ensures status == Ok && key != value ==>
              && Holds(key, entry.key)
              && SameFrom(|entry.key| + 1, old(Bytes(key)), Bytes(key))
              && SameFrom(|entry.value| + 1, old(Bytes(value)), Bytes(value))
    ensures status == BufferTooSmall ==> Emptied(key) && Emptied(value)
    ensures status == InvalidArgument ==> SameFrom(0, old(Bytes(key)), Bytes(key)) && SameFrom(0, old(Bytes(value)), Bytes(value))
  {
    if key == null || keySize == 0 || value == null || valueSize == 0 {
      return InvalidArgument;
    }
    var keyStatus := CopyToBuffer(entry.key, key, keySize);
    var valueStatus := CopyToBuffer(entry.value, value, valueSize);
    if keyStatus == Ok && valueStatus == Ok {
      return Ok;
    }
    key[0] := '\0';
    value[0] := '\0';
    return BufferTooSmall;
  }

  // ------------------------------------------------------------ the store

  class DocumentStore {
    const slots: array<Slot>
    var idSeeded: bool
    var nextId: u32
    ghost var mints: seq<Mint>

    ghost predicate SlotsValid()
      reads slots
    {
      && slots.Length == SLOT_COUNT
      && Distinct(slots[..])
      && (forall i :: 0 <= i < slots.Length && slots[i].occupied ==> slots[i].id != 0)
    }

    ghost predicate Valid()
      reads this, slots
    {
      && SlotsValid()
      && MintLog(mints)
      && (mints != [] ==> idSeeded && Follows(mints[|mints| - 1], nextId, Documents().Keys))
    }

    ghost function Documents(): map<u32, FlattenResult>
      reads slots
    {
      Held(slots[..])
    }

    constructor ()
      ensures Valid() && fresh(slots) && !idSeeded && Documents() == map[] && mints == []
    {
      slots := new Slot[SLOT_COUNT](_ => EMPTY_SLOT);
      idSeeded, nextId, mints := false, 0, [];
      new;
      NoneHeld(slots[..]);
    }

    /** Minting starts at a given id. */
    constructor StartingAt(firstId: u32)
      ensures Valid() && fresh(slots) && idSeeded && nextId == firstId && Documents() == map[] && mints == []
    {
      slots := new Slot[SLOT_COUNT](_ => EMPTY_SLOT);
      idSeeded, nextId, mints := true, firstId, [];
      new;
      NoneHeld(slots[..]);
    }

    method FindFreeSlot() returns (i: nat)
      requires SlotsValid()
      ensures i <= slots.Length
      ensures i < slots.Length ==> !slots[i].occupied && |Documents()| < SLOT_COUNT
      ensures i == slots.Length ==> |Documents()| == SLOT_COUNT
    {
      i := 0;
      while i < slots.Length && slots[i].occupied
        invariant i <= slots.Length
        invariant forall j :: 0 <= j < i ==> slots[j].occupied
      {
        i := i + 1;
      }
      if i < slots.Length {
        RoomSize(slots[..], i);
      } else {
        FullSize(slots[..]);
      }
    }

    /** The slot of a live id, or the slot count. */
    method FindLiveSlot(documentId: u32) returns (i: nat)
      requires SlotsValid()
      ensures i <= slots.Length
      ensures i < slots.Length <==> documentId in Documents()
      ensures i < slots.Length ==>
                slots[i].occupied && slots[i].id == documentId && slots[i].result == Documents()[documentId]
    {
      i := 0;
      if documentId == 0 {
        NotHeld(slots[..], 0);
        return slots.Length;
      }
      while i < slots.Length && !(slots[i].occupied && slots[i].id == documentId)
        invariant i <= slots.Length
        invariant forall j :: 0 <= j < i ==> !(slots[j].occupied && slots[j].id == documentId)
      {
        i := i + 1;
      }
      if i < slots.Length {
        HeldAt(slots[..], i);
      } else {
        NotHeld(slots[..], documentId);
      }
    }

    method IsIdLive(id: u32) returns (live: bool)
      requires SlotsValid()
      ensures live <==> id in Documents()
    {
      for i := 0 to slots.Length
        invariant forall j :: 0 <= j < i ==> !(slots[j].occupied && slots[j].id == id)
      {
        if slots[i].occupied && slots[i].id == id {
          HeldAt(slots[..], i);
          return true;
        }
      }
      NotHeld(slots[..], id);
      return false;
    }

    ghost function MintStart(seed: u32): u32
      reads this
    {
      if idSeeded then nextId else seed
    }

    /** Counts up from the clock's value, or from the last id; `seed` is what the clock would give. */
    method MintId(seed: u32) returns (id: u32)
      requires SlotsValid() && |Documents()| <= 7
      modifies this`idSeeded, this`nextId
      ensures id == IdMint.MintId(old(MintStart(seed)), Documents().Keys)
      ensures idSeeded && nextId == Inc32(id)
    {
      if !idSeeded {
        nextId := seed;
        idSeeded := true;
      }
      ghost var start, live := nextId, Documents().Keys;
      ghost var avoid := live + {0};
      ghost var tried := 0;
      MintIsFresh(start, live);
      FirstGapIsFree(start, avoid);
      while true
        invariant idSeeded
        invariant tried <= FirstGap(start, avoid) && nextId == Ahead(start, tried)
        decreases FirstGap(start, avoid) - tried
      {
        if tried < FirstGap(start, avoid) {
          BeforeGapIsTaken(start, avoid, tried);
        }
        var candidate := nextId;
        nextId := Inc32(nextId);
        if candidate != 0 {
          var taken := IsIdLive(candidate);
          if !taken {
            return candidate;
          }
        }
        tried := tried + 1;
      }
    }

    /** Over the whole life of a store, an id stands for another document only after a turn of the counter. */
    lemma IdsRecurRarely(i: nat, j: nat)
      requires Valid() && i < j < |mints| && mints[i].id == mints[j].id
      ensures j - i - 1 >= TWO_32 - 9
    {
      MintSpacing(mints, i, j);
    }

    // ---------------------------------------------------------- calls

    method Insert(result: FlattenResult, seed: u32) returns (r: Result<u32>)
      requires Valid()
      modifies this, slots
      ensures Valid()
      ensures r.Failure? <==> |old(Documents())| == SLOT_COUNT
      ensures r.Failure? ==> r.error == NoFreeDocumentSlot && Documents() == old(Documents()) && mints == old(mints)
      ensures r.Success? ==>
                && r.value != 0 && r.value !in old(Documents())
                && Documents() == old(Documents())[r.value := result]
                && mints == old(mints) + [MintOf(old(MintStart(seed)), old(Documents().Keys))]
                && mints[|old(mints)|].id == r.value
    {
      var i := FindFreeSlot();
      if i == slots.Length {
        return Failure(NoFreeDocumentSlot);
      }
      ghost var before := slots[..];
      ghost var mint := MintOf(MintStart(seed), Documents().Keys);
      MintIsFresh(mint.next, mint.live);
      MintLogGrows(mints, mint);
      var id := MintId(seed);
      FillFree(before, i, id, result);
      forall j | 0 <= j < slots.Length && slots[j].occupied
        ensures slots[j].id != id
      {
        HeldAt(before, j);
      }
      slots[i] := Slot(true, id, result);
      mints := mints + [mint];
      assert slots[..] == before[i := Slot(true, id, result)];
      return Success(id);
    }

    method Count(documentId: u32) returns (r: Result<u32>)
      requires Valid()
      ensures r == if documentId in Documents() then Success(|Documents()[documentId].entries| % TWO_32)
                   else Failure(UnknownDocumentId)
    {
      var i := FindLiveSlot(documentId);
      if i == slots.Length {
        return Failure(UnknownDocumentId);
      }
      return Success(|slots[i].result.entries| % TWO_32);
    }

    method ReadEntry(documentId: u32, entryIndex: u32, key: array?<char>, keySize: u32,
                     value: array?<char>, valueSize: u32)
      returns (status: Status, kind: Option<EntryType>)
      requires Valid()
      requires (key != null ==> keySize <= key.Length) && (value != null ==> valueSize <= value.Length)
      modifies Buffers(key, value)
      ensures Valid() && Documents() == old(Documents())
      ensures status == UnknownDocumentId <==> documentId !in Documents()
      ensures status == IndexOutOfRange <==>
                documentId in Documents() && entryIndex >= |Documents()[documentId].entries|
      ensures documentId in Documents() && entryIndex < |Documents()[documentId].entries| ==>
                var e := Documents()[documentId].entries[entryIndex];
                var noBuffer := key == null || keySize == 0 || value == null || valueSize == 0;
                && EntryAt(Documents(), documentId, entryIndex) == Success(e)
                && (status == InvalidArgument <==> noBuffer)
                && (status == BufferTooSmall <==> !noBuffer && (|e.key| >= keySize || |e.value| >= valueSize))
                && (status == Ok <==> !noBuffer && |e.key| < keySize && |e.value| < valueSize)
                && (status == Ok ==> kind == Some(e.kind) && Holds(value, e.value))
                && (status == Ok && key != value ==>
                      && Holds(key, e.key)
                      && SameFrom(|e.key| + 1, old(Bytes(key)), Bytes(key))
                      && SameFrom(|e.value| + 1, old(Bytes(value)), Bytes(value)))
      ensures status != Ok ==> kind == None
      ensures status == BufferTooSmall ==> Emptied(key) && Emptied(value)
      ensures status !in {Ok, BufferTooSmall} ==> SameFrom(0, old(Bytes(key)), Bytes(key)) && SameFrom(0, old(Bytes(value)), Bytes(value))
    {
      kind := None;
      var i := FindLiveSlot(documentId);
      if i == slots.Length {
        status := UnknownDocumentId;
        return;
      }
      var entries := slots[i].result.entries;
      if entryIndex >= |entries| {
        status := IndexOutOfRange;
        return;
      }
      var entry := entries[entryIndex];
      status := CopyEntryTexts(entry, key, keySize, value, valueSize);
      if status == Ok {
        kind := Some(entry.kind);
      }
    }

    method ReadValue(documentId: u32, path: View, value: array?<char>, valueSize: u32)
      returns (status: Status, kind: Option<EntryType>)
      requires Valid()
      requires value != null ==> valueSize <= value.Length
      modifies if value == null then {} else {value}
      ensures Valid() && Documents() == old(Documents())
      ensures var v := ValueAt(Documents(), documentId, path);
              match v
              case Failure(error) => status == error && kind == None && SameFrom(0, old(Bytes(value)), Bytes(value))
              case Success(leaf) =>
                && status == CopyStatus(leaf.text, Capacity(value, valueSize))
                && (status == Ok ==>
                      && Holds(value, leaf.text) && kind == Some(leaf.kind)
                      && SameFrom(|leaf.text| + 1, old(Bytes(value)), Bytes(value)))
                && (status != Ok ==> kind == None)
                && (status == BufferTooSmall ==> Emptied(value) && SameFrom(1, old(Bytes(value)), Bytes(value)))
                && (status == InvalidArgument ==> SameFrom(0, old(Bytes(value)), Bytes(value)))
    {
      kind := None;
      var i := FindLiveSlot(documentId);
      if i == slots.Length {
        status := UnknownDocumentId;
        return;
      }
      var node := ResolvePath(slots[i].result.document, path);
      if node.Failure? {
        status := node.error;
        return;
      }
      var leaf := DescribeLeaf(node.value);
      if leaf.Failure? {
        status := leaf.error;
        return;
      }
      status := CopyToBuffer(leaf.value.text, value, valueSize);
      if status == Ok {
        kind := Some(leaf.value.kind);
      }
    }

    /** A typed read: the path's syntax is judged before the id. */
    method ReadWithTokens(documentId: u32, path: View, read: (Json, seq<string>) -> Status) returns (status: Status)
      requires Valid()
      ensures status ==
              var tokens := TokensOfView(path);
              if tokens.Failure? then tokens.error
              else if documentId !in Documents() then UnknownDocumentId
              else read(Documents()[documentId].document, tokens.value)
    {
      var tokens := ParsePath(path);
      if tokens.Failure? {
        return tokens.error;
      }
      var i := FindLiveSlot(documentId);
      if i == slots.Length {
        return UnknownDocumentId;
      }
      return read(slots[i].result.document, tokens.value);
    }

    method Discard(documentId: u32) returns (status: Status)
      requires Valid()
      modifies slots
      ensures Valid() && Documents() == old(Documents()) - {documentId}
      ensures status == if documentId in old(Documents()) then Ok else UnknownDocumentId
    {
      var i := FindLiveSlot(documentId);
      if i == slots.Length {
        return UnknownDocumentId;
      }
      ghost var before := slots[..];
      ClearHeld(before, i);
      slots[i] := EMPTY_SLOT;
      assert slots[..] == before[i := EMPTY_SLOT];
      return Ok;
    }

    method DiscardAll() returns (discardedCount: u32)
      requires Valid()
      modifies slots
      ensures Valid() && Documents() == map[]
      ensures discardedCount == |old(Documents())|
    {
      discardedCount := 0;
      HeldSize(slots[..]);
      for i := 0 to slots.Length
        invariant SlotsValid() && Documents().Keys <= old(Documents().Keys)
        invariant forall j :: 0 <= j < i ==> !slots[j].occupied
        invariant discardedCount + |Documents()| == |old(Documents())| <= SLOT_COUNT
      {
        if !slots[i].occupied {
          continue;
        }
        ghost var before := slots[..];
        ClearHeld(before, i);
        slots[i] := EMPTY_SLOT;
        assert slots[..] == before[i := EMPTY_SLOT];
        discardedCount := discardedCount + 1;
      }
      NoneHeld(slots[..]);
    }
  }

  // ------------------------------------------------------------ from text to a stored document

  ghost predicate AllSound(documents: map<u32, FlattenResult>) {
    forall id :: id in documents ==> Sound(documents[id])
  }

  lemma SoundStaysSound(documents: map<u32, FlattenResult>, id: u32, text: string, parse: string -> Parsed)
    requires AllSound(documents) && FlattenText(text, parse).Success?
    ensures AllSound(documents[id := FlattenText(text, parse).value])
  {
    AcceptedTextIsSound(text, parse);
  }

  /** Flattens a text and stores the result: a bad text is reported before a full store, and a store that
      held only sound documents still does. */
  method ParseJsonDocument(store: DocumentStore, text: string, parse: string -> Parsed, seed: u32)
    returns (r: Result<u32>)
    requires store.Valid() && AllSound(store.Documents())
    modifies store, store.slots
    ensures store.Valid() && AllSound(store.Documents())
    ensures match r
            case Success(id) =>
              && FlattenText(text, parse).Success? && id != 0 && id !in old(store.Documents())
              && store.Documents() == old(store.Documents())[id := FlattenText(text, parse).value]
            case Failure(error) =>
              && store.Documents() == old(store.Documents())
              && if FlattenText(text, parse).Failure? then error == FlattenText(text, parse).error
                 else error == NoFreeDocumentSlot && |store.Documents()| == SLOT_COUNT
  {
    var flattened := FlattenJson(text, parse);
    if flattened.Failure? {
      return Failure(flattened.error);
    }
    r := store.Insert(flattened.value, seed);
    if r.Success? {
      SoundStaysSound(old(store.Documents()), r.value, text, parse);
    }
  }
}
