/** Copies of text into a caller's buffer (src/core/buffer-copy.cpp). */
module BufferCopy {
  import opened Statuses

  function CopyStatus(text: string, size: u32): Status {
    if size == 0 then InvalidArgument else if |text| >= size then BufferTooSmall else Ok
  }

  /** The size a caller really offers: no buffer is a buffer of size zero. */
  function Capacity(buffer: array?<char>, size: u32): u32 { if buffer == null then 0 else size }

  /** The bytes of a buffer; no buffer has none. */
  ghost function Bytes(buffer: array?<char>): seq<char>
    reads if buffer == null then {} else {buffer}
  {
    if buffer == null then [] else buffer[..]
  }

  /** From position `from` on the bytes are the same. */
  ghost predicate SameFrom(from: nat, before: seq<char>, after: seq<char>) {
    |before| == |after| && forall k :: from <= k < |after| ==> after[k] == before[k]
  }

  /** The buffer holds this text and its terminator. */
  ghost predicate Holds(buffer: array?<char>, text: string)
    reads if buffer == null then {} else {buffer}
  {
    buffer != null && |text| < buffer.Length && buffer[..|text|] == text && buffer[|text|] == '\0'
  }

  ghost predicate Emptied(buffer: array?<char>)
    reads if buffer == null then {} else {buffer}
  {
    buffer != null && buffer.Length > 0 && buffer[0] == '\0'
  }

  /** Copies all of `text` with a terminator, or nothing: a buffer that is too small is left empty. No byte
      behind the terminator is touched. */
  method CopyToBuffer(text: string, buffer: array?<char>, size: u32) returns (status: Status)
    requires buffer != null ==> size <= buffer.Length
    modifies if buffer == null then {} else {buffer}
    ensures status == CopyStatus(text, Capacity(buffer, size))
    ensures status == InvalidArgument <==> buffer == null || size == 0
    ensures status == BufferTooSmall <==> buffer != null && 0 < size <= |text|
    ensures status == Ok <==> buffer != null && |text| < size
    ensures status == Ok ==> |text| < size && Holds(buffer, text) && SameFrom(|text| + 1, old(Bytes(buffer)), Bytes(buffer))
    ensures status == BufferTooSmall ==> Emptied(buffer) && SameFrom(1, old(Bytes(buffer)), Bytes(buffer))
    ensures status == InvalidArgument ==> SameFrom(0, old(Bytes(buffer)), Bytes(buffer))
  {
    if buffer == null || size == 0 {
      return InvalidArgument;
    }
    buffer[0] := '\0';
    if |text| >= size {
      return BufferTooSmall;
    }
    for k := 0 to |text|
      invariant buffer[..k] == text[..k] && forall j :: |text| <= j < buffer.Length && j > 0 ==> buffer[j] == old(buffer[j])
    {
      buffer[k] := text[k];
    }
    buffer[|text|] := '\0';
    return Ok;
  }
}
