/** The quote translation of src/mapping/json-quotes.cpp: strings written in apostrophes become
    double-quoted JSON strings. A `char` stands for one byte. */
module JsonQuotes {
  import opened Statuses

  datatype Scan = Outside | DoubleQuoted | Apostrophe

  /** What the scanner emits for the next one or two bytes, how many it takes, and where it goes on. */
  datatype Chunk = Chunk(emitted: string, taken: nat, next: Scan)

  function NextChunk(state: Scan, s: string): (r: Chunk)
    requires s != ""
    ensures 1 <= r.taken <= |s|
  {
    var c := s[0];
    match state
    case Outside =>
      if c == '\'' then Chunk("\"", 1, Apostrophe)
      else Chunk([c], 1, if c == '"' then DoubleQuoted else Outside)
    case DoubleQuoted =>
      if c == '\\' && |s| > 1 then Chunk([c, s[1]], 2, DoubleQuoted)
      else Chunk([c], 1, if c == '"' then Outside else DoubleQuoted)
    case Apostrophe =>
      if c == '\\' && |s| > 1 then Chunk(if s[1] == '\'' then "'" else [c, s[1]], 2, Apostrophe)
      else if c == '\'' then Chunk("\"", 1, Outside)
      else if c == '"' then Chunk("\\\"", 1, Apostrophe)
      else Chunk([c], 1, Apostrophe)
  }

  /** The scanner's whole output. */
  function Convert(state: Scan, s: string): string
    decreases |s|
  {
    if s == "" then ""
    else
      var chunk := NextChunk(state, s);
      chunk.emitted + Convert(chunk.next, s[chunk.taken..])
  }

  /** One turn of the scanner's loop, from output `before` with `tail` still to scan. */
  lemma Resume(before: string, state: Scan, tail: string)
    requires tail != ""
    ensures var chunk := NextChunk(state, tail);
            before + Convert(state, tail) == before + chunk.emitted + Convert(chunk.next, tail[chunk.taken..])
  {
    var chunk := NextChunk(state, tail);
    assert Convert(state, tail) == chunk.emitted + Convert(chunk.next, tail[chunk.taken..]);
    Assoc(before, chunk.emitted, Convert(chunk.next, tail[chunk.taken..]));
  }

  lemma Assoc(a: string, b: string, c: string)
    ensures a + (b + c) == a + b + c
  {
  }

  method ConvertApostropheStrings(text: string) returns (status: Status, out: string)
    ensures status == Ok && out == Convert(Outside, text)
  {
    out := "";
    var state := Outside;
    var i := 0;
    while i < |text|
      invariant i <= |text|
      invariant out + Convert(state, text[i..]) == Convert(Outside, text)
    {
      var c := text[i];
      ghost var tail := text[i..];
      ghost var chunk := NextChunk(state, tail);
      Resume(out, state, tail);
      assert tail[chunk.taken..] == text[i + chunk.taken..];
      match state {
        case Outside =>
          if c == '\'' {
            out := out + ['"'];
            state := Apostrophe;
          } else {
            out := out + [c];
            if c == '"' {
              state := DoubleQuoted;
            }
          }
        case DoubleQuoted =>
          if c == '\\' && i + 1 < |text| {
            i := i + 1;
            out := out + [c, text[i]];
          } else {
            out := out + [c];
            if c == '"' {
              state := Outside;
            }
          }
        case Apostrophe =>
          if c == '\\' && i + 1 < |text| {
            i := i + 1;
            var next := text[i];
            if next == '\'' {
              out := out + ['\''];
            } else {
              out := out + [c, next];
            }
          } else if c == '\'' {
            out := out + ['"'];
            state := Outside;
          } else if c == '"' {
            out := out + "\\\"";
          } else {
            out := out + [c];
          }
      }
      i := i + 1;
    }
    assert text[i..] == "";
    status := Ok;
  }

  // ------------------------------------------------------------ idempotence

  /** How the scanner sees its own output: what was written in apostrophes is now double-quoted. */
  function Seen(state: Scan): Scan { if state == Apostrophe then DoubleQuoted else state }

  /** Reading its own output, the scanner takes each chunk it emitted as one chunk, and leaves it as it is. */
  lemma SeenEmitted(state: Scan, s: string, rest: string)
    requires s != "" && (|s| == 1 ==> rest == "")
    ensures var chunk := NextChunk(state, s);
            && chunk.emitted != ""
            && NextChunk(Seen(state), chunk.emitted + rest) == Chunk(chunk.emitted, |chunk.emitted|, Seen(chunk.next))
            && (chunk.emitted + rest)[|chunk.emitted|..] == rest
  {
  }

  lemma SeenChunk(state: Scan, s: string)
    requires s != ""
    ensures var chunk, out := NextChunk(state, s), Convert(state, s);
            && out != "" && NextChunk(Seen(state), out) == Chunk(chunk.emitted, |chunk.emitted|, Seen(chunk.next))
            && out[|chunk.emitted|..] == Convert(chunk.next, s[chunk.taken..])
  {
    var chunk := NextChunk(state, s);
    var rest := Convert(chunk.next, s[chunk.taken..]);
    SeenEmitted(state, s, rest);
    assert Convert(state, s) == chunk.emitted + rest;
  }

  /** Converting twice is converting once, on every byte string and from every state. */
  lemma {:induction false} ConvertTwice(state: Scan, s: string)
    ensures Convert(Seen(state), Convert(state, s)) == Convert(state, s)
    decreases |s|
  {
    if s != "" {
      var chunk := NextChunk(state, s);
      SeenChunk(state, s);
      ConvertTwice(chunk.next, s[chunk.taken..]);
    }
  }

  /** The state the scanner is in at the end of the text. */
  function EndState(state: Scan, s: string): Scan
    decreases |s|
  {
    if s == "" then state
    else
      var chunk := NextChunk(state, s);
      EndState(chunk.next, s[chunk.taken..])
  }

  /** A string left open stays open in the output, and a closed text stays closed. */
  lemma {:induction false} EndIsKept(state: Scan, s: string)
    ensures EndState(Seen(state), Convert(state, s)) == Seen(EndState(state, s))
    decreases |s|
  {
    if s != "" {
      var chunk := NextChunk(state, s);
      SeenChunk(state, s);
      EndIsKept(chunk.next, s[chunk.taken..]);
    }
  }

  // ------------------------------------------------------------ when nothing changes

  /** An apostrophe lies outside every double-quoted string. */
  predicate OutsideApostrophe(state: Scan, s: string)
    requires state != Apostrophe
    decreases |s|
  {
    s != "" &&
    var chunk := NextChunk(state, s);
    chunk.next == Apostrophe || OutsideApostrophe(chunk.next, s[chunk.taken..])
  }

  /** The text is left alone exactly when no apostrophe lies outside a double-quoted string. */
  lemma {:induction false} UnchangedIff(state: Scan, s: string)
    requires state != Apostrophe
    ensures Convert(state, s) == s <==> !OutsideApostrophe(state, s)
    decreases |s|
  {
    if s != "" {
      var chunk := NextChunk(state, s);
      var tail := s[chunk.taken..];
      if chunk.next == Apostrophe {
        assert Convert(state, s)[0] == '"';
      } else {
        UnchangedIff(chunk.next, tail);
        assert chunk.emitted == s[..chunk.taken];
        assert s == s[..chunk.taken] + tail;
        if Convert(state, s) == s {
          assert Convert(chunk.next, tail) == Convert(state, s)[chunk.taken..];
        }
      }
    }
  }

  lemma {:induction false} NoApostropheOutside(state: Scan, s: string)
    requires state != Apostrophe && '\'' !in s
    ensures !OutsideApostrophe(state, s)
    decreases |s|
  {
    if s != "" {
      NoApostropheOutside(NextChunk(state, s).next, s[NextChunk(state, s).taken..]);
    }
  }

  /** A text without any apostrophe need not be converted. */
  lemma NoApostropheNoChange(state: Scan, s: string)
    requires state != Apostrophe && '\'' !in s
    ensures Convert(state, s) == s
  {
    NoApostropheOutside(state, s);
    UnchangedIff(state, s);
  }

  // ------------------------------------------------------------ size and bytes

  lemma {:induction false} ConvertSize(state: Scan, s: string)
    ensures |Convert(state, s)| <= 2 * |s|
    ensures s != "" ==> Convert(state, s) != ""
    decreases |s|
  {
    if s != "" {
      var chunk := NextChunk(state, s);
      ConvertSize(chunk.next, s[chunk.taken..]);
    }
  }

  /** Conversion neither adds nor removes a byte other than quotes and backslashes. */
  lemma {:induction false} ConvertKeepsByte(state: Scan, s: string, c: char)
    requires c != '\'' && c != '"' && c != '\\'
    ensures c in Convert(state, s) <==> c in s
    decreases |s|
  {
    if s != "" {
      var chunk := NextChunk(state, s);
      ConvertKeepsByte(chunk.next, s[chunk.taken..], c);
      assert s == s[..chunk.taken] + s[chunk.taken..];
      assert c in chunk.emitted <==> c in s[..chunk.taken];
    }
  }

  // ------------------------------------------------------------ meaning

  datatype Quote = Double | Apos

  function Mark(q: Quote): char { if q == Double then '"' else '\'' }

  /** JSON text as its author sees it: text outside strings, and string literals in either notation. */
  datatype Segment = Text(text: string) | Literal(quote: Quote, raw: string)

  /** The body of a literal: it neither contains its own mark unescaped nor ends in the middle of an escape. */
  predicate Closed(mark: char, raw: string)
    decreases |raw|
  {
    raw == "" ||
    if raw[0] == '\\' then |raw| > 1 && Closed(mark, raw[2..])
    else raw[0] != mark && Closed(mark, raw[1..])
  }

  predicate WellFormed(seg: Segment) {
    match seg
    case Text(text) => '\'' !in text && '"' !in text
    case Literal(q, raw) => Closed(Mark(q), raw)
  }

  function RenderBefore(seg: Segment, rest: string): string {
    match seg
    case Text(text) => text + rest
    case Literal(q, raw) => [Mark(q)] + (raw + ([Mark(q)] + rest))
  }

  function Render(segs: seq<Segment>): string {
    if segs == [] then "" else RenderBefore(segs[0], Render(segs[1..]))
  }

  function DoubleQuoteOne(seg: Segment): Segment {
    match seg
    case Text(_) => seg
    case Literal(q, raw) => if q == Apos then Literal(Double, Requote(raw)) else seg
  }

  /** The body of an apostrophe literal, rewritten for double quotes. */
  function Requote(raw: string): string
    decreases |raw|
  {
    if raw == "" then ""
    else if raw[0] == '\\' && |raw| > 1 then
      (if raw[1] == '\'' then "'" else [raw[0], raw[1]]) + Requote(raw[2..])
    else if raw[0] == '"' then "\\\"" + Requote(raw[1..])
    else [raw[0]] + Requote(raw[1..])
  }

  /** The same segments with every literal double-quoted. */
  function DoubleQuote(segs: seq<Segment>): seq<Segment> {
    if segs == [] then [] else [DoubleQuoteOne(segs[0])] + DoubleQuote(segs[1..])
  }

  /** A decoded unit: a byte copied from the text, or the code unit of a \u escape. */
  datatype Unit = Byte(c: char) | CodeUnit(n: nat)

  predicate IsHex(c: char) { '0' <= c <= '9' || 'a' <= c <= 'f' || 'A' <= c <= 'F' }

  function HexDigit(c: char): nat
    requires IsHex(c)
  {
    if c <= '9' then c as int - '0' as int
    else if c <= 'F' then c as int - 'A' as int + 10
    else c as int - 'a' as int + 10
  }

  predicate HexPrefix(s: string, n: nat) {
    n == 0 || (s != "" && IsHex(s[0]) && HexPrefix(s[1..], n - 1))
  }

  function HexValue(s: string, n: nat, acc: nat): nat
    requires HexPrefix(s, n)
  {
    if n == 0 then acc else HexValue(s[1..], n - 1, 16 * acc + HexDigit(s[0]))
  }

  lemma {:induction false} HexPrefixSize(s: string, n: nat)
    requires HexPrefix(s, n)
    ensures n <= |s|
  {
    if n > 0 {
      HexPrefixSize(s[1..], n - 1);
    }
  }

  /** The one-character escapes of section 7 of RFC 8259; an apostrophe literal also has \'. */
  function SimpleEscape(q: Quote, c: char): Option<char> {
    if c == '"' || c == '\\' || c == '/' then Some(c)
    else if c == 'b' then Some(8 as char)
    else if c == 'f' then Some(12 as char)
    else if c == 'n' then Some(10 as char)
    else if c == 'r' then Some(13 as char)
    else if c == 't' then Some(9 as char)
    else if c == '\'' && q == Apos then Some('\'')
    else None
  }

  function Prepend(u: Unit, rest: Option<seq<Unit>>): Option<seq<Unit>> {
    if rest == None then None else Some([u] + rest.value)
  }

  /** The content a literal's body stands for; None when it is not a valid JSON string. */
  function Decode(q: Quote, raw: string): Option<seq<Unit>>
    decreases |raw|
  {
    if raw == "" then Some([])
    else if raw[0] != '\\' then
      if raw[0] < ' ' then None else Prepend(Byte(raw[0]), Decode(q, raw[1..]))
    else if |raw| < 2 then None
    else if raw[1] == 'u' then
      if HexPrefix(raw[2..], 4) then
        HexPrefixSize(raw[2..], 4);
        Prepend(CodeUnit(HexValue(raw[2..], 4, 0)), Decode(q, raw[6..]))
      else None
    else
      var e := SimpleEscape(q, raw[1]);
      if e == None then None else Prepend(Byte(e.value), Decode(q, raw[2..]))
  }

  /** Hex digits at the front of a body survive requoting, and none appear there. */
  lemma {:induction false} HexSurvives(raw: string, n: nat, acc: nat)
    ensures HexPrefix(Requote(raw), n) <==> HexPrefix(raw, n)
    ensures HexPrefix(raw, n) ==>
              n <= |raw| && n <= |Requote(raw)| && Requote(raw)[n..] == Requote(raw[n..])
              && HexValue(Requote(raw), n, acc) == HexValue(raw, n, acc)
    decreases n
  {
    if n > 0 && raw != "" && IsHex(raw[0]) {
      HexSurvives(raw[1..], n - 1, 16 * acc + HexDigit(raw[0]));
      assert Requote(raw)[1..] == Requote(raw[1..]);
      if HexPrefix(raw, n) {
        assert Requote(raw)[n..] == Requote(raw[1..])[n - 1..];
        assert raw[n..] == raw[1..][n - 1..];
      }
    }
  }

  /** Requoting keeps the decoded content, valid or not. */
  lemma {:induction false} RequoteKeepsContent(raw: string)
    requires Closed('\'', raw)
    ensures Closed('"', Requote(raw))
    ensures Decode(Double, Requote(raw)) == Decode(Apos, raw)
    decreases |raw|
  {
    if raw == "" {
    } else if raw[0] == '\\' {
      RequoteEscape(raw);
    } else {
      RequoteKeepsContent(raw[1..]);
      var out := Requote(raw);
      if raw[0] == '"' {
        assert out[2..] == Requote(raw[1..]);
      } else {
        assert out[1..] == Requote(raw[1..]);
      }
    }
  }

  lemma RequoteEscape(raw: string)
    requires raw != "" && raw[0] == '\\' && Closed('\'', raw)
    ensures Closed('"', Requote(raw))
    ensures Decode(Double, Requote(raw)) == Decode(Apos, raw)
    decreases |raw|, 0
  {
    var out, tail := Requote(raw), raw[2..];
    RequoteKeepsContent(tail);
    if raw[1] == '\'' {
      assert out[1..] == Requote(tail);
    } else {
      assert out[2..] == Requote(tail);
      if raw[1] == 'u' {
        HexSurvives(tail, 4, 0);
        if HexPrefix(tail, 4) {
          ClosedAfterHex('\'', tail, 4);
          RequoteKeepsContent(raw[6..]);
          assert raw[6..] == tail[4..];
          assert out[6..] == Requote(tail)[4..];
        }
      }
    }
  }

  lemma {:induction false} ClosedAfterHex(mark: char, raw: string, n: nat)
    requires Closed(mark, raw) && HexPrefix(raw, n)
    ensures n <= |raw| && Closed(mark, raw[n..])
    decreases n
  {
    if n > 0 {
      ClosedAfterHex(mark, raw[1..], n - 1);
      assert raw[n..] == raw[1..][n - 1..];
    }
  }

  // The scanner on one literal and on one stretch of text.

  lemma {:induction false} ScanApostropheLiteral(raw: string, rest: string)
    requires Closed('\'', raw)
    ensures Convert(Apostrophe, raw + ("'" + rest)) == Requote(raw) + ("\"" + Convert(Outside, rest))
    decreases |raw|
  {
    var all := raw + ("'" + rest);
    if raw == "" {
      assert all[1..] == rest;
    } else {
      var chunk := NextChunk(Apostrophe, all);
      var tail := raw[chunk.taken..];
      assert chunk == NextChunk(Apostrophe, raw) && chunk.next == Apostrophe;
      assert all[chunk.taken..] == tail + ("'" + rest);
      ScanApostropheLiteral(tail, rest);
      assert Requote(raw) == chunk.emitted + Requote(tail);
      Assoc(chunk.emitted, Requote(tail), "\"" + Convert(Outside, rest));
    }
  }

  lemma {:induction false} ScanDoubleLiteral(raw: string, rest: string)
    requires Closed('"', raw)
    ensures Convert(DoubleQuoted, raw + ("\"" + rest)) == raw + ("\"" + Convert(Outside, rest))
    decreases |raw|
  {
    var all := raw + ("\"" + rest);
    if raw == "" {
      assert all[1..] == rest;
    } else {
      var chunk := NextChunk(DoubleQuoted, all);
      var tail := raw[chunk.taken..];
      assert chunk == NextChunk(DoubleQuoted, raw) && chunk.next == DoubleQuoted;
      assert all[chunk.taken..] == tail + ("\"" + rest);
      ScanDoubleLiteral(tail, rest);
      assert raw == chunk.emitted + tail;
      Assoc(chunk.emitted, tail, "\"" + Convert(Outside, rest));
    }
  }

  lemma {:induction false} ScanText(text: string, rest: string)
    requires WellFormed(Text(text))
    ensures Convert(Outside, text + rest) == text + Convert(Outside, rest)
    decreases |text|
  {
    if text == "" {
      assert text + rest == rest;
    } else {
      assert (text + rest)[1..] == text[1..] + rest;
      ScanText(text[1..], rest);
    }
  }

  lemma ScanSegment(seg: Segment, rest: string)
    requires WellFormed(seg)
    ensures Convert(Outside, RenderBefore(seg, rest)) == RenderBefore(DoubleQuoteOne(seg), Convert(Outside, rest))
  {
    match seg {
      case Text(text) => ScanText(text, rest);
      case Literal(q, raw) =>
        var all := RenderBefore(seg, rest);
        assert all[1..] == raw + ([Mark(q)] + rest);
        if q == Apos {
          ScanApostropheLiteral(raw, rest);
        } else {
          ScanDoubleLiteral(raw, rest);
        }
    }
  }

  /** The output is the same sequence of text and literals, with every literal double-quoted. */
  lemma {:induction false} ConvertDoubleQuotes(segs: seq<Segment>)
    requires forall k :: 0 <= k < |segs| ==> WellFormed(segs[k])
    ensures Convert(Outside, Render(segs)) == Render(DoubleQuote(segs))
  {
    if segs != [] {
      ScanSegment(segs[0], Render(segs[1..]));
      ConvertDoubleQuotes(segs[1..]);
      assert DoubleQuote(segs)[1..] == DoubleQuote(segs[1..]);
    }
  }

  /** Position by position: text is untouched, and every literal decodes to the same content as before. */
  lemma {:induction false} MeaningIsKept(segs: seq<Segment>, k: nat)
    requires k < |segs| && WellFormed(segs[k])
    ensures |DoubleQuote(segs)| == |segs| && WellFormed(DoubleQuote(segs)[k])
    ensures match segs[k]
            case Text(_) => DoubleQuote(segs)[k] == segs[k]
            case Literal(q, raw) =>
              && DoubleQuote(segs)[k].Literal? && DoubleQuote(segs)[k].quote == Double
              && Decode(Double, DoubleQuote(segs)[k].raw) == Decode(q, raw)
  {
    DoubleQuoteSize(segs[1..]);
    if k == 0 {
      if segs[0].Literal? && segs[0].quote == Apos {
        RequoteKeepsContent(segs[0].raw);
      }
    } else {
      MeaningIsKept(segs[1..], k - 1);
    }
  }

  lemma {:induction false} DoubleQuoteSize(segs: seq<Segment>)
    ensures |DoubleQuote(segs)| == |segs|
  {
    if segs != [] {
      DoubleQuoteSize(segs[1..]);
    }
  }

  // ------------------------------------------------------------ which texts are segments

  ghost predicate AllWellFormed(segs: seq<Segment>) { forall k :: 0 <= k < |segs| ==> WellFormed(segs[k]) }

  function InString(q: Quote): Scan { if q == Double then DoubleQuoted else Apostrophe }

  /** One byte, or one escape, in front of a literal's body. */
  lemma ClosedGrows(mark: char, front: string, raw: string)
    requires Closed(mark, raw)
    requires (|front| == 1 && front[0] != '\\' && front[0] != mark) || (|front| == 2 && front[0] == '\\')
    ensures Closed(mark, front + raw)
  {
    assert (front + raw)[|front|..] == raw;
  }

  /** Inside a string the scanner takes one byte, or one escape, until it meets the closing mark. */
  lemma ChunkInString(q: Quote, s: string)
    requires s != "" && NextChunk(InString(q), s).next != Outside
    ensures var chunk := NextChunk(InString(q), s);
            var front := s[..chunk.taken];
            && chunk.next == InString(q)
            && (s == "\\" || (|front| == 1 && front[0] != '\\' && front[0] != Mark(q)) || (|front| == 2 && front[0] == '\\'))
  {
  }

  /** A string that is closed before the end of the text: its body, and what follows its closing mark. */
  lemma {:induction false} CloseLiteral(q: Quote, s: string) returns (raw: string, rest: string)
    requires EndState(InString(q), s) == Outside
    ensures s == raw + ([Mark(q)] + rest) && Closed(Mark(q), raw) && EndState(Outside, rest) == Outside
    decreases |s|
  {
    var chunk := NextChunk(InString(q), s);
    var front, tail := s[..chunk.taken], s[chunk.taken..];
    assert s == front + tail;
    if chunk.next == Outside {
      raw, rest := "", tail;
    } else {
      ChunkInString(q, s);
      raw, rest := CloseLiteral(q, tail);
      ClosedGrows(Mark(q), front, raw);
      Assoc(front, raw, [Mark(q)] + rest);
      raw := front + raw;
    }
  }

  /** A text in which every string is closed is a sequence of quote-free text and closed literals. */
  lemma {:induction false} TextIsSegments(s: string) returns (segs: seq<Segment>)
    requires EndState(Outside, s) == Outside
    ensures AllWellFormed(segs) && Render(segs) == s
    decreases |s|
  {
    if s == "" {
      segs := [];
    } else if s[0] == '"' || s[0] == '\'' {
      var q := if s[0] == '"' then Double else Apos;
      var raw, rest := CloseLiteral(q, s[1..]);
      var others := TextIsSegments(rest);
      segs := [Literal(q, raw)] + others;
      assert segs[1..] == others;
      assert s == [s[0]] + s[1..];
    } else {
      var others := TextIsSegments(s[1..]);
      segs := [Text([s[0]])] + others;
      assert segs[1..] == others;
      assert s == [s[0]] + s[1..];
    }
  }

  lemma {:induction false} EndAfterLiteral(q: Quote, raw: string, rest: string)
    requires Closed(Mark(q), raw)
    ensures EndState(InString(q), raw + ([Mark(q)] + rest)) == EndState(Outside, rest)
    decreases |raw|
  {
    var s := raw + ([Mark(q)] + rest);
    if raw == "" {
      assert s[1..] == rest;
    } else {
      var k := if raw[0] == '\\' then 2 else 1;
      EndAfterLiteral(q, raw[k..], rest);
      assert s[k..] == raw[k..] + ([Mark(q)] + rest);
      assert s[0] == raw[0];
    }
  }

  lemma {:induction false} EndAfterText(text: string, rest: string)
    requires WellFormed(Text(text))
    ensures EndState(Outside, text + rest) == EndState(Outside, rest)
    decreases |text|
  {
    if text == "" {
      assert text + rest == rest;
    } else {
      EndAfterText(text[1..], rest);
      assert (text + rest)[1..] == text[1..] + rest;
    }
  }

  lemma {:induction false} SegmentsEndOutside(segs: seq<Segment>)
    requires AllWellFormed(segs)
    ensures EndState(Outside, Render(segs)) == Outside
  {
    if segs != [] {
      var rest := Render(segs[1..]);
      SegmentsEndOutside(segs[1..]);
      match segs[0] {
        case Text(text) => EndAfterText(text, rest);
        case Literal(q, raw) =>
          EndAfterLiteral(q, raw, rest);
          assert Render(segs)[1..] == raw + ([Mark(q)] + rest);
      }
    }
  }

  /** The texts that are sequences of quote-free text and closed literals are exactly those that leave no
      string open. */
  lemma SegmentsIff(s: string)
    ensures (exists segs :: AllWellFormed(segs) && Render(segs) == s) <==> EndState(Outside, s) == Outside
  {
    if EndState(Outside, s) == Outside {
      var segs := TextIsSegments(s);
    }
    forall segs | AllWellFormed(segs) && Render(segs) == s
      ensures EndState(Outside, s) == Outside
    {
      SegmentsEndOutside(segs);
    }
  }

  // ------------------------------------------------------------ every text, also one that breaks off in a string

  function RenderThen(segs: seq<Segment>, rest: string): string {
    if segs == [] then rest else RenderBefore(segs[0], RenderThen(segs[1..], rest))
  }

  /** How a text ends: outside every string, or in a string that is never closed, perhaps with a lone backslash. */
  datatype Ending = Whole | Open(quote: Quote, body: string, slash: string)

  ghost predicate WellEnded(e: Ending) {
    e.Open? ==> Closed(Mark(e.quote), e.body) && (e.slash == "" || e.slash == "\\")
  }

  function EndingText(e: Ending): string {
    match e
    case Whole => ""
    case Open(q, body, slash) => [Mark(q)] + (body + slash)
  }

  function DoubleQuoteEnding(e: Ending): Ending {
    match e
    case Whole => e
    case Open(q, body, slash) => if q == Apos then Open(Double, Requote(body), slash) else e
  }

  /** The rest of a text inside a string: either the string is closed, or it is all body. */
  lemma {:induction false} CloseOrEnd(q: Quote, s: string) returns (closed: bool, raw: string, rest: string)
    ensures Closed(Mark(q), raw)
    ensures closed ==> s == raw + ([Mark(q)] + rest)
    ensures !closed ==> s == raw + rest && (rest == "" || rest == "\\")
    decreases |s|
  {
    if s == "" || s == "\\" {
      closed, raw, rest := false, "", s;
    } else if s[0] == Mark(q) {
      closed, raw, rest := true, "", s[1..];
    } else {
      var k := if s[0] == '\\' then 2 else 1;
      var front := s[..k];
      assert s == front + s[k..];
      closed, raw, rest := CloseOrEnd(q, s[k..]);
      ClosedGrows(Mark(q), front, raw);
      Assoc(front, raw, if closed then [Mark(q)] + rest else rest);
      raw := front + raw;
    }
  }

  /** Every text is quote-free text and closed literals, and then its end. */
  lemma {:induction false} TextParts(s: string) returns (segs: seq<Segment>, e: Ending)
    ensures AllWellFormed(segs) && WellEnded(e) && RenderThen(segs, EndingText(e)) == s
    decreases |s|
  {
    if s == "" {
      segs, e := [], Whole;
    } else {
      var tail := s[1..];
      assert s == [s[0]] + tail;
      if s[0] == '"' || s[0] == '\'' {
        var q := if s[0] == '"' then Double else Apos;
        var closed, raw, rest := CloseOrEnd(q, tail);
        if closed {
          segs, e := TextParts(rest);
          segs := [Literal(q, raw)] + segs;
        } else {
          segs, e := [], Open(q, raw, rest);
        }
      } else {
        segs, e := TextParts(tail);
        segs := [Text([s[0]])] + segs;
      }
    }
  }

  lemma {:induction false} ConvertOpenApostrophe(body: string, slash: string)
    requires Closed('\'', body) && (slash == "" || slash == "\\")
    ensures Convert(Apostrophe, body + slash) == Requote(body) + slash
    decreases |body|
  {
    var all := body + slash;
    if body == "" {
      assert all == slash;
      assert slash != "" ==> slash[1..] == "" && Convert(Apostrophe, slash[1..]) == "";
    } else {
      var chunk := NextChunk(Apostrophe, all);
      var tail := body[chunk.taken..];
      assert all[chunk.taken..] == tail + slash;
      ConvertOpenApostrophe(tail, slash);
      Assoc(chunk.emitted, Requote(tail), slash);
    }
  }

  lemma {:induction false} ConvertOpenDouble(body: string, slash: string)
    requires Closed('"', body) && (slash == "" || slash == "\\")
    ensures Convert(DoubleQuoted, body + slash) == body + slash
    decreases |body|
  {
    var all := body + slash;
    if body == "" {
      assert all == slash;
      assert slash != "" ==> slash[1..] == "" && Convert(DoubleQuoted, slash[1..]) == "";
    } else {
      var chunk := NextChunk(DoubleQuoted, all);
      var tail := body[chunk.taken..];
      assert all[chunk.taken..] == tail + slash;
      ConvertOpenDouble(tail, slash);
      assert body == chunk.emitted + tail;
      Assoc(chunk.emitted, tail, slash);
    }
  }

  lemma ConvertEnding(e: Ending)
    requires WellEnded(e)
    ensures Convert(Outside, EndingText(e)) == EndingText(DoubleQuoteEnding(e))
  {
    if e.Open? {
      var all := EndingText(e);
      assert all[1..] == e.body + e.slash;
      if e.quote == Apos {
        ConvertOpenApostrophe(e.body, e.slash);
      } else {
        ConvertOpenDouble(e.body, e.slash);
      }
    }
  }

  /** The whole translation: every literal is double-quoted, and so is a string left open; nothing else changes. */
  lemma {:induction false} ConvertParts(segs: seq<Segment>, e: Ending)
    requires AllWellFormed(segs) && WellEnded(e)
    ensures Convert(Outside, RenderThen(segs, EndingText(e))) ==
            RenderThen(DoubleQuote(segs), EndingText(DoubleQuoteEnding(e)))
  {
    if segs == [] {
      ConvertEnding(e);
    } else {
      ScanSegment(segs[0], RenderThen(segs[1..], EndingText(e)));
      ConvertParts(segs[1..], e);
      assert DoubleQuote(segs)[1..] == DoubleQuote(segs[1..]);
    }
  }
}
