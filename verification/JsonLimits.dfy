/** The streaming limit pass of src/mapping/json-flatten.cpp: it rejects oversized text from parser events
    alone, before any document or any key is built. */
module JsonLimits {
  import opened Statuses
  import opened Numerals

  const MAX_DEPTH := 64
  const MAX_ENTRIES := 10000
  const MAX_KEY_BYTES := 4194304

  /** What the parser reports, in text order. */
  datatype Event = LeafEvent | BinaryEvent | OpenEvent(isArray: bool) | KeyEvent(name: string) | CloseEvent

  datatype KeyFrame = KeyFrame(isArray: bool, nextIndex: nat, prefixBytes: nat)

  /** The pass between two events. `frames` are the open containers. */
  datatype Pass = Pass(frames: seq<KeyFrame>, entryCount: nat, keyTotal: nat, pendingTokenBytes: nat, justOpened: bool)

  const FRESH := Pass([], 0, 0, 0, false)

  /** The bytes a key takes inside a path. */
  function TokenBytes(name: string): nat {
    if name == "" then 0 else TokenBytes(name[1..]) + if name[0] == '~' || name[0] == '/' then 2 else 1
  }

  /** The key size of the next value; arrays count their elements as they go by. */
  function NextKeyBytes(p: Pass): nat {
    if p.frames == [] then 0
    else
      var top := p.frames[|p.frames| - 1];
      top.prefixBytes + 1 + if top.isArray then |Decimal(top.nextIndex)| else p.pendingTokenBytes
  }

  function Advance(frames: seq<KeyFrame>): seq<KeyFrame> {
    if frames == [] || !frames[|frames| - 1].isArray then frames
    else
      var top := frames[|frames| - 1];
      frames[|frames| - 1 := top.(nextIndex := top.nextIndex + 1)]
  }

  function CountLeaf(p: Pass, keyBytes: nat): Result<Pass> {
    if p.entryCount >= MAX_ENTRIES then Failure(TooManyEntries)
    else if keyBytes > MAX_KEY_BYTES - p.keyTotal then Failure(KeyTextTooLarge)
    else Success(p.(entryCount := p.entryCount + 1, keyTotal := p.keyTotal + keyBytes))
  }

  function OnLeaf(p: Pass): Result<Pass> {
    CountLeaf(p.(frames := Advance(p.frames), justOpened := false), NextKeyBytes(p))
  }

  function OnKey(p: Pass, name: string): Result<Pass> {
    if '\0' in name then Failure(ParseError)
    else Success(p.(pendingTokenBytes := TokenBytes(name), justOpened := false))
  }

  function OnOpen(p: Pass, isArray: bool): Result<Pass> {
    if |p.frames| >= MAX_DEPTH then Failure(NestingTooDeep)
    else Success(p.(frames := Advance(p.frames) + [KeyFrame(isArray, 0, NextKeyBytes(p))], justOpened := true))
  }

  function OnClose(p: Pass): Result<Pass>
    requires p.frames != []
  {
    var closed := p.(frames := p.frames[..|p.frames| - 1], justOpened := false);
    if p.justOpened then CountLeaf(closed, p.frames[|p.frames| - 1].prefixBytes) else Success(closed)
  }

  /** No container is closed that was not opened. */
  predicate Nested(events: seq<Event>, depth: nat) {
    events == [] ||
    match events[0]
    case OpenEvent(_) => Nested(events[1..], depth + 1)
    case CloseEvent => depth > 0 && Nested(events[1..], depth - 1)
    case _ => Nested(events[1..], depth)
  }

  function React(p: Pass, e: Event): Result<Pass>
    requires e.CloseEvent? ==> p.frames != []
  {
    match e
    case LeafEvent => OnLeaf(p)
    case BinaryEvent => Failure(ParseError)
    case OpenEvent(isArray) => OnOpen(p, isArray)
    case KeyEvent(name) => OnKey(p, name)
    case CloseEvent => OnClose(p)
  }

  /** The whole pass: it stops at the first event that is rejected. */
  function Feed(p: Pass, events: seq<Event>): Result<Pass>
    requires Nested(events, |p.frames|)
    decreases |events|
  {
    if events == [] then Success(p)
    else
      var next := React(p, events[0]);
      if next.Failure? then next else Feed(next.value, events[1..])
  }

  // ------------------------------------------------------------ the handler object

  class LimitCheckingSax {
    var failure: Status
    var depth: nat
    var entryCount: nat
    var keyTotal: nat
    var pendingTokenBytes: nat
    const frames: array<KeyFrame>
    var justOpened: bool

    ghost predicate Valid()
      reads this
    {
      frames.Length == MAX_DEPTH && depth <= MAX_DEPTH && keyTotal <= MAX_KEY_BYTES
    }

    ghost function State(): Pass
      requires Valid()
      reads this, frames
    {
      Pass(frames[..depth], entryCount, keyTotal, pendingTokenBytes, justOpened)
    }

    constructor ()
      ensures Valid() && fresh(frames) && State() == FRESH && failure == ParseError
    {
      failure := ParseError;
      depth, entryCount, keyTotal, pendingTokenBytes := 0, 0, 0, 0;
      frames := new KeyFrame[MAX_DEPTH](_ => KeyFrame(false, 0, 0));
      justOpened := false;
    }

    method Reject(status: Status) returns (ok: bool)
      requires Valid()
      modifies this`failure
      ensures Valid() && !ok && failure == status
    {
      failure := status;
      ok := false;
    }

    method CountEntry() returns (ok: bool)
      requires Valid()
      modifies this`failure, this`entryCount
      ensures Valid()
      ensures ok <==> old(entryCount) < MAX_ENTRIES
      ensures ok ==> entryCount == old(entryCount) + 1 && failure == old(failure)
      ensures !ok ==> entryCount == old(entryCount) && failure == TooManyEntries
    {
      if entryCount >= MAX_ENTRIES {
        ok := Reject(TooManyEntries);
        return;
      }
      entryCount := entryCount + 1;
      ok := true;
    }

    method AddKeyBytes(keyBytes: nat) returns (ok: bool)
      requires Valid()
      modifies this`failure, this`keyTotal
      ensures Valid()
      ensures ok <==> old(keyTotal) + keyBytes <= MAX_KEY_BYTES
      ensures ok ==> keyTotal == old(keyTotal) + keyBytes && failure == old(failure)
      ensures !ok ==> keyTotal == old(keyTotal) && failure == KeyTextTooLarge
    {
      var room: nat := MAX_KEY_BYTES - keyTotal;
      if keyBytes > room {
        ok := Reject(KeyTextTooLarge);
        return;
      }
      keyTotal := keyTotal + keyBytes;
      ok := true;
    }

    method TakeKeyBytes() returns (keyBytes: nat)
      requires Valid()
      modifies frames
      ensures Valid() && keyBytes == NextKeyBytes(old(State()))
      ensures State() == old(State()).(frames := Advance(old(State()).frames))
    {
      if depth == 0 {
        return 0;
      }
      var top := frames[depth - 1];
      var token := pendingTokenBytes;
      if top.isArray {
        token := DecimalDigits(top.nextIndex);
        frames[depth - 1] := top.(nextIndex := top.nextIndex + 1);
      }
      keyBytes := top.prefixBytes + 1 + token;
    }

    /** A handler's answer: the new state, or the failure it leaves behind. */
    ghost predicate Answers(ok: bool, expected: Result<Pass>)
      requires Valid()
      reads this, frames
    {
      match expected
      case Success(p) => ok && State() == p
      case Failure(status) => !ok && failure == status
    }

    method Leaf() returns (ok: bool)
      requires Valid()
      modifies this, frames
      ensures Valid() && Answers(ok, OnLeaf(old(State())))
      ensures ok ==> failure == old(failure)
    {
      justOpened := false;
      var keyBytes := TakeKeyBytes();
      ok := CountEntry();
      if ok {
        ok := AddKeyBytes(keyBytes);
      }
    }

    method Key(name: string) returns (ok: bool)
      requires Valid()
      modifies this
      ensures Valid() && Answers(ok, OnKey(old(State()), name))
      ensures ok ==> failure == old(failure)
    {
      justOpened := false;
      if '\0' in name {
        ok := Reject(ParseError);
        return;
      }
      pendingTokenBytes := |name|;
      for k := 0 to |name|
        invariant Valid() && name[..] == name
        invariant unchanged(`failure, `depth, `entryCount, `keyTotal) && !justOpened
        invariant pendingTokenBytes + TokenBytes(name[k..]) == TokenBytes(name) + (|name| - k)
      {
        assert name[k..][1..] == name[k + 1..];
        if name[k] == '~' || name[k] == '/' {
          pendingTokenBytes := pendingTokenBytes + 1;
        }
      }
      ok := true;
    }

    method Open(isArray: bool) returns (ok: bool)
      requires Valid()
      modifies this, frames
      ensures Valid() && Answers(ok, OnOpen(old(State()), isArray))
      ensures ok ==> failure == old(failure)
    {
      if depth >= MAX_DEPTH {
        ok := Reject(NestingTooDeep);
        return;
      }
      var keyBytes := TakeKeyBytes();
      ghost var advanced := frames[..depth];
      frames[depth] := KeyFrame(isArray, 0, keyBytes);
      assert frames[..depth] == advanced;
      depth := depth + 1;
      justOpened := true;
      ok := true;
    }

    method Close() returns (ok: bool)
      requires Valid() && depth > 0
      modifies this
      ensures Valid() && Answers(ok, OnClose(old(State())))
      ensures ok ==> failure == old(failure)
    {
      var wasEmpty := justOpened;
      justOpened := false;
      ghost var open := frames[..depth];
      depth := depth - 1;
      assert frames[..depth] == open[..depth];
      ok := true;
      if wasEmpty {
        ok := CountEntry();
        if ok {
          ok := AddKeyBytes(frames[depth].prefixBytes);
        }
      }
    }

    /** The parser's calls, until one is refused. */
    method Scan(events: seq<Event>) returns (ok: bool)
      requires Valid() && Nested(events, depth)
      modifies this, frames
      ensures Valid() && Answers(ok, Feed(old(State()), events))
      ensures ok ==> failure == old(failure)
    {
      ghost var verdict := Feed(State(), events);
      for k := 0 to |events|
        invariant Valid() && Nested(events[k..], depth)
        invariant Feed(State(), events[k..]) == verdict && failure == old(failure)
      {
        assert events[k..][1..] == events[k + 1..];
        match events[k] {
          case LeafEvent => ok := Leaf();
          case BinaryEvent => ok := Reject(ParseError);
          case OpenEvent(isArray) => ok := Open(isArray);
          case KeyEvent(name) => ok := Key(name);
          case CloseEvent => ok := Close();
        }
        if !ok {
          return;
        }
      }
      ok := true;
    }
  }
}
