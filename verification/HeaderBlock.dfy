/** Header blocks of src/http/sync-text-api.cpp: lines of `name: value`, separated by LF or CRLF. */
module HeaderBlock {
  import opened Statuses
  import opened HttpTypes
  import opened Texts

  const LF := '\n'
  const CR := '\r'

  predicate IsSpace(c: char) { c == ' ' || '\t' <= c <= '\r' }

  /** The six white-space bytes: tab, line feed, vertical tab, form feed, carriage return and space. */
  lemma SpaceBytes(c: char)
    ensures IsSpace(c) <==> c as int in {9, 10, 11, 12, 13, 32}
  {
    assert '\t' as int == 9 && '\r' as int == 13 && ' ' as int == 32;
  }

  predicate Blank(s: string) { forall k :: 0 <= k < |s| ==> IsSpace(s[k]) }

  function TrimFront(s: string): string {
    if s != "" && IsSpace(s[0]) then TrimFront(s[1..]) else s
  }

  function TrimBack(s: string): string {
    if s != "" && IsSpace(s[|s| - 1]) then TrimBack(s[..|s| - 1]) else s
  }

  function Trimmed(s: string): string { TrimBack(TrimFront(s)) }

  method Trim(text: string) returns (r: string)
    ensures r == Trimmed(text)
  {
    r := text;
    while r != "" && IsSpace(r[0])
      invariant TrimFront(r) == TrimFront(text)
      decreases |r|
    {
      r := r[1..];
    }
    while r != "" && IsSpace(r[|r| - 1])
      invariant TrimBack(r) == Trimmed(text)
      decreases |r|
    {
      r := r[..|r| - 1];
    }
  }

  function StripTrailingCr(line: string): string {
    if line != "" && line[|line| - 1] == CR then line[..|line| - 1] else line
  }

  function HeaderOf(line: string): Option<HttpHeader> {
    var stripped := StripTrailingCr(line);
    var colon := Find(stripped, ':', 0);
    if colon == |stripped| then None
    else
      var name, value := Trimmed(stripped[..colon]), Trimmed(stripped[colon + 1..]);
      if name == "" || value == "" then None else Some(HttpHeader(name, value))
  }

  /** The lines up to the first bad one. */
  function HeadersOf(lines: seq<string>): (Status, seq<HttpHeader>) {
    if lines == [] then (Ok, [])
    else if HeaderOf(lines[0]) == None then (MalformedHeaderBlock, [])
    else
      var rest := HeadersOf(lines[1..]);
      (rest.0, [HeaderOf(lines[0]).value] + rest.1)
  }

  function Parsed(block: string): (Status, seq<HttpHeader>) {
    if block == "" then (Ok, []) else HeadersOf(Split(block, LF))
  }

  /** The headers already taken, in front of what the rest gives. */
  function After(taken: seq<HttpHeader>, rest: (Status, seq<HttpHeader>)): (Status, seq<HttpHeader>) {
    (rest.0, taken + rest.1)
  }

  /** The first `n` lines are good, and the headers are theirs. */
  ghost predicate HeadersOfFirst(lines: seq<string>, n: nat, headers: seq<HttpHeader>) {
    n == |headers| <= |lines| && forall k :: 0 <= k < n ==> HeaderOf(lines[k]) == Some(headers[k])
  }

  /** Good lines up to the end, or up to a bad one. */
  lemma {:induction false} HeadersAre(lines: seq<string>, headers: seq<HttpHeader>)
    requires HeadersOfFirst(lines, |headers|, headers)
    ensures |headers| == |lines| ==> HeadersOf(lines) == (Ok, headers)
    ensures |headers| < |lines| && HeaderOf(lines[|headers|]) == None ==>
            HeadersOf(lines) == (MalformedHeaderBlock, headers)
    decreases |headers|
  {
    if headers != [] {
      assert headers == [headers[0]] + headers[1..];
      HeadersAre(lines[1..], headers[1..]);
    }
  }

  method ParseLine(text: string) returns (header: Option<HttpHeader>)
    ensures header == HeaderOf(text)
  {
    var line := StripTrailingCr(text);
    var colonPos := Find(line, ':', 0);
    if colonPos == |line| {
      return None;
    }
    var name := Trim(line[..colonPos]);
    var value := Trim(line[colonPos + 1..]);
    if name == "" || value == "" {
      return None;
    }
    return Some(HttpHeader(name, value));
  }

  lemma OneMoreHeader(lines: seq<string>, headers: seq<HttpHeader>, h: HttpHeader)
    requires HeadersOfFirst(lines, |headers|, headers) && |headers| < |lines|
    requires HeaderOf(lines[|headers|]) == Some(h)
    ensures HeadersOfFirst(lines, |headers| + 1, headers + [h])
  {
    var more := headers + [h];
    forall k | 0 <= k < |more|
      ensures HeaderOf(lines[k]) == Some(more[k])
    {
      assert k < |headers| ==> HeaderOf(lines[k]) == Some(headers[k]);
    }
  }

  /** Line `n` of the block starts at `start`. */
  ghost predicate LineStarts(block: string, n: nat, start: nat) {
    && start <= |block| && n < |Split(block, LF)|
    && SplitFrom(block, LF, start) == Split(block, LF)[n..]
  }

  /** The line that starts here, and where the one after it starts. */
  lemma NextLine(block: string, n: nat, start: nat)
    requires LineStarts(block, n, start)
    ensures var end := Find(block, LF, start);
            && block[start..end] == Split(block, LF)[n]
            && (end == |block| ==> |Split(block, LF)| == n + 1)
            && (end < |block| ==> LineStarts(block, n + 1, end + 1))
  {
    var lines := Split(block, LF);
    assert lines[n..][1..] == lines[n + 1..];
  }

  method ParseHeaderBlock(block: string) returns (status: Status, out: seq<HttpHeader>)
    ensures (status, out) == Parsed(block)
  {
    out := [];
    if block == "" {
      return Ok, out;
    }
    var start := 0;
    ghost var lines := Split(block, LF);
    assert lines[0..] == lines;
    while true
      invariant LineStarts(block, |out|, start) && HeadersOfFirst(lines, |out|, out)
      decreases |block| - start
    {
      var newlinePos := Find(block, LF, start);
      NextLine(block, |out|, start);
      var header := ParseLine(block[start..newlinePos]);
      if header == None {
        HeadersAre(lines, out);
        return MalformedHeaderBlock, out;
      }
      OneMoreHeader(lines, out, header.value);
      out := out + [header.value];

      if newlinePos == |block| {
        HeadersAre(lines, out);
        break;
      }
      start := newlinePos + 1;
    }
    return Ok, out;
  }

  // ------------------------------------------------------------ trimming

  lemma {:induction false} TrimFrontParts(s: string) returns (a: string)
    ensures s == a + TrimFront(s) && Blank(a)
    ensures TrimFront(s) != "" ==> !IsSpace(TrimFront(s)[0])
  {
    if s != "" && IsSpace(s[0]) {
      a := TrimFrontParts(s[1..]);
      a := [s[0]] + a;
    } else {
      a := "";
    }
  }

  lemma {:induction false} TrimBackParts(s: string) returns (b: string)
    ensures s == TrimBack(s) + b && Blank(b)
    ensures TrimBack(s) != "" ==> !IsSpace(TrimBack(s)[|TrimBack(s)| - 1])
  {
    if s != "" && IsSpace(s[|s| - 1]) {
      b := TrimBackParts(s[..|s| - 1]);
      b := b + [s[|s| - 1]];
    } else {
      b := "";
    }
  }

  /** Text whose ends, if it has any, are not white space. */
  predicate Tight(s: string) { s != "" ==> !IsSpace(s[0]) && !IsSpace(s[|s| - 1]) }

  /** Trimming removes white space at both ends, all of it and nothing else. */
  lemma TrimParts(s: string) returns (a: string, b: string)
    ensures s == a + Trimmed(s) + b && Blank(a) && Blank(b) && Tight(Trimmed(s))
  {
    a := TrimFrontParts(s);
    b := TrimBackParts(TrimFront(s));
    assert a + (Trimmed(s) + b) == a + Trimmed(s) + b;
  }

  lemma TrimEmptyIff(s: string)
    ensures Trimmed(s) == "" <==> Blank(s)
  {
    var a, b := TrimParts(s);
    var t := Trimmed(s);
    assert t != "" ==> s[|a|] == t[0];
    assert t == "" ==> s == a + b;
  }

  lemma {:induction false} TrimFrontPadded(a: string, t: string)
    requires Blank(a) && (t == "" || !IsSpace(t[0]))
    ensures TrimFront(a + t) == t
  {
    if a == "" {
      assert a + t == t;
    } else {
      assert (a + t)[1..] == a[1..] + t;
      TrimFrontPadded(a[1..], t);
    }
  }

  lemma {:induction false} TrimBackPadded(t: string, b: string)
    requires Blank(b) && (t == "" || !IsSpace(t[|t| - 1]))
    ensures TrimBack(t + b) == t
  {
    if b == "" {
      assert t + b == t;
    } else {
      assert (t + b)[..|t + b| - 1] == t + b[..|b| - 1];
      TrimBackPadded(t, b[..|b| - 1]);
    }
  }

  /** Padding does not change what trimming leaves. */
  lemma TrimPadded(a: string, t: string, b: string)
    requires Blank(a) && Blank(b) && t != "" && Tight(t)
    ensures Trimmed(a + t + b) == t
  {
    assert a + t + b == a + (t + b);
    TrimFrontPadded(a, t + b);
    TrimBackPadded(t, b);
  }

  /** White space at the end does not change what trimming leaves. */
  lemma TrimTail(s: string, b: string)
    requires Blank(b)
    ensures Trimmed(s + b) == Trimmed(s)
  {
    var x, y := TrimParts(s);
    var t := Trimmed(s);
    if t == "" {
      TrimEmptyIff(s);
      TrimEmptyIff(s + b);
    } else {
      assert s + b == x + t + (y + b);
      TrimPadded(x, t, y + b);
    }
  }

  // ------------------------------------------------------------ which blocks are accepted

  /** Something before the first colon, and something after it. */
  ghost predicate GoodLine(line: string) {
    exists colon :: 0 <= colon < |line| && line[colon] == ':' && ':' !in line[..colon]
                    && !Blank(line[..colon]) && !Blank(line[colon + 1..])
  }

  /** The header of a line whose trailing CR, if any, is left on: white space to be trimmed like any other. */
  function HeaderAround(line: string, colon: nat): Option<HttpHeader>
    requires colon <= |line|
  {
    if colon == |line| || Blank(line[..colon]) || Blank(line[colon + 1..]) then None
    else Some(HttpHeader(Trimmed(line[..colon]), Trimmed(line[colon + 1..])))
  }

  lemma StripKeepsColon(line: string)
    ensures var stripped := StripTrailingCr(line);
            var colon := Find(line, ':', 0);
            && (colon == |line| ==> Find(stripped, ':', 0) == |stripped|)
            && (colon < |line| ==> Find(stripped, ':', 0) == colon < |stripped| && stripped[..colon] == line[..colon])
  {
    var stripped, colon := StripTrailingCr(line), Find(line, ':', 0);
    NoneBefore(line, ':', 0);
    if colon < |line| {
      assert stripped[..colon] == line[..colon];
      FindIs(stripped, ':', 0, colon);
    } else {
      assert line[..colon] == line;
      assert stripped[..|stripped|] == stripped;
      FindIs(stripped, ':', 0, |stripped|);
    }
  }

  lemma StripKeepsValue(line: string, colon: nat)
    requires colon < |line| && line[colon] == ':'
    ensures colon < |StripTrailingCr(line)|
    ensures Trimmed(StripTrailingCr(line)[colon + 1..]) == Trimmed(line[colon + 1..])
  {
    var stripped := StripTrailingCr(line);
    if |stripped| < |line| {
      assert line[colon + 1..] == stripped[colon + 1..] + [CR];
      TrimTail(stripped[colon + 1..], [CR]);
    }
  }

  lemma LineWithColon(line: string)
    ensures HeaderOf(line) == HeaderAround(line, Find(line, ':', 0))
  {
    var colon := Find(line, ':', 0);
    StripKeepsColon(line);
    if colon < |line| {
      StripKeepsValue(line, colon);
      TrimEmptyIff(line[..colon]);
      TrimEmptyIff(line[colon + 1..]);
    }
  }

  lemma GoodLineIff(line: string)
    ensures HeaderOf(line) != None <==> GoodLine(line)
  {
    LineWithColon(line);
    NoneBefore(line, ':', 0);
    if GoodLine(line) {
      var colon :| 0 <= colon < |line| && line[colon] == ':' && ':' !in line[..colon]
                   && !Blank(line[..colon]) && !Blank(line[colon + 1..]);
      FindIs(line, ':', 0, colon);
    }
  }

  lemma OneInFront(lines: seq<string>, headers: seq<HttpHeader>)
    requires lines != [] && HeaderOf(lines[0]) != None && HeadersOfFirst(lines[1..], |headers|, headers)
    ensures HeadersOfFirst(lines, |headers| + 1, [HeaderOf(lines[0]).value] + headers)
  {
    forall k | 0 <= k < |headers| + 1
      ensures HeaderOf(lines[k]) == Some(([HeaderOf(lines[0]).value] + headers)[k])
    {
      assert k > 0 ==> HeaderOf(lines[1..][k - 1]) == Some(headers[k - 1]);
    }
  }

  lemma {:induction false} HeadersInOrder(lines: seq<string>)
    ensures var (status, headers) := HeadersOf(lines);
            && HeadersOfFirst(lines, |headers|, headers)
            && (status == Ok <==> |headers| == |lines|)
            && (status != Ok ==> status == MalformedHeaderBlock && HeaderOf(lines[|headers|]) == None)
  {
    if lines != [] && HeaderOf(lines[0]) != None {
      var rest := HeadersOf(lines[1..]);
      HeadersInOrder(lines[1..]);
      OneInFront(lines, rest.1);
    }
  }

  ghost predicate AllGood(lines: seq<string>) { forall k :: 0 <= k < |lines| ==> GoodLine(lines[k]) }

  lemma AllGoodIff(lines: seq<string>)
    ensures AllGood(lines) <==> forall k :: 0 <= k < |lines| ==> HeaderOf(lines[k]) != None
  {
    forall k | 0 <= k < |lines|
      ensures HeaderOf(lines[k]) != None <==> GoodLine(lines[k])
    {
      GoodLineIff(lines[k]);
    }
  }

  /** A block is accepted exactly when it is empty or every line is good, and then each line gave one header,
      in order; otherwise the headers of the lines before the first bad one are left behind. */
  lemma AcceptedIff(block: string)
    ensures Parsed(block).0 == Ok <==> block == "" || AllGood(Split(block, LF))
    ensures block != "" && Parsed(block).0 == Ok ==>
            HeadersOfFirst(Split(block, LF), |Split(block, LF)|, Parsed(block).1)
    ensures Parsed(block).0 != Ok ==>
            && HeadersOfFirst(Split(block, LF), |Parsed(block).1|, Parsed(block).1)
            && Parsed(block).0 == MalformedHeaderBlock
            && |Parsed(block).1| < |Split(block, LF)| && !GoodLine(Split(block, LF)[|Parsed(block).1|])
  {
    var lines := Split(block, LF);
    HeadersInOrder(lines);
    AllGoodIff(lines);
    var n := |HeadersOf(lines).1|;
    if n < |lines| {
      GoodLineIff(lines[n]);
    }
  }

  // ------------------------------------------------------------ printing

  /** A header that a line can carry. */
  predicate Clean(h: HttpHeader) {
    && h.name != "" && Tight(h.name) && ':' !in h.name && LF !in h.name
    && h.value != "" && Tight(h.value) && LF !in h.value
  }

  function Line(h: HttpHeader): string { h.name + ": " + h.value }

  /** The headers, one to a line, with this text between the lines. */
  function Print(headers: seq<HttpHeader>, eol: string): string {
    if headers == [] then ""
    else if |headers| == 1 then Line(headers[0])
    else Line(headers[0]) + eol + Print(headers[1..], eol)
  }

  predicate IsEol(eol: string) { eol == [LF] || eol == [CR, LF] }

  lemma PrintedLineLayout(h: HttpHeader, cr: string)
    requires ':' !in h.name
    ensures var line := Line(h) + cr;
            && Find(line, ':', 0) == |h.name| < |line|
            && line[..|h.name|] == h.name && line[|h.name| + 1..] == " " + h.value + cr
  {
    var line := Line(h) + cr;
    assert line[..|h.name|] == h.name;
    FindIs(line, ':', 0, |h.name|);
  }

  lemma PrintedLineParses(h: HttpHeader, cr: string)
    requires Clean(h) && (cr == "" || cr == [CR])
    ensures HeaderOf(Line(h) + cr) == Some(h)
  {
    PrintedLineLayout(h, cr);
    LineWithColon(Line(h) + cr);
    TrimTight(h.name, "", "");
    TrimTight(h.value, " ", cr);
    assert "" + h.name + "" == h.name;
  }

  /** Padding makes a tight text neither blank nor different. */
  lemma TrimTight(t: string, a: string, b: string)
    requires t != "" && Tight(t) && Blank(a) && Blank(b)
    ensures Trimmed(a + t + b) == t && !Blank(a + t + b)
  {
    TrimPadded(a, t, b);
    TrimEmptyIff(a + t + b);
  }

  lemma LineIsOneLine(h: HttpHeader, cr: string)
    requires Clean(h) && (cr == "" || cr == [CR])
    ensures Line(h) != "" && LF !in Line(h) + cr
  {
  }

  /** One more line in front of a block. */
  lemma FirstLine(line: string, rest: string)
    requires LF !in line
    ensures HeadersOf(Split(line, LF)) == HeadersOf([line])
    ensures HeadersOf(Split(line + [LF] + rest, LF)) == HeadersOf([line] + Split(rest, LF))
  {
    SplitFirst(line, rest, LF);
  }

  lemma HeadersOfFront(line: string, lines: seq<string>)
    requires HeaderOf(line) != None
    ensures HeadersOf([line] + lines) == After([HeaderOf(line).value], HeadersOf(lines))
  {
    assert ([line] + lines)[1..] == lines;
  }

  /** A printed header in front of a block that has been read. */
  lemma PrintedFront(h: HttpHeader, cr: string, rest: string)
    requires Clean(h) && (cr == "" || cr == [CR])
    ensures var line := Line(h) + cr;
            HeadersOf(Split(line + [LF] + rest, LF)) == After([h], HeadersOf(Split(rest, LF)))
  {
    PrintedLineParses(h, cr);
    LineIsOneLine(h, cr);
    FirstLine(Line(h) + cr, rest);
    HeadersOfFront(Line(h) + cr, Split(rest, LF));
  }

  lemma PrintedAlone(h: HttpHeader)
    requires Clean(h)
    ensures HeadersOf(Split(Line(h), LF)) == (Ok, [h])
  {
    PrintedLineParses(h, "");
    LineIsOneLine(h, "");
    assert Line(h) + "" == Line(h);
    FirstLine(Line(h), "");
    HeadersOfFront(Line(h), []);
    assert [Line(h)] + [] == [Line(h)];
    assert [h] + [] == [h];
  }

  lemma PrintMore(headers: seq<HttpHeader>, cr: string)
    requires |headers| > 1
    ensures Print(headers, cr + [LF]) == (Line(headers[0]) + cr) + [LF] + Print(headers[1..], cr + [LF])
  {
  }

  lemma {:induction false} PrintedLinesParse(headers: seq<HttpHeader>, cr: string)
    requires cr == "" || cr == [CR]
    requires headers != [] && forall k :: 0 <= k < |headers| ==> Clean(headers[k])
    ensures HeadersOf(Split(Print(headers, cr + [LF]), LF)) == (Ok, headers)
  {
    assert headers == [headers[0]] + headers[1..];
    if |headers| == 1 {
      PrintedAlone(headers[0]);
    } else {
      PrintedLinesParse(headers[1..], cr);
      PrintMore(headers, cr);
      PrintedFront(headers[0], cr, Print(headers[1..], cr + [LF]));
    }
  }

  lemma TrimmedFrom(s: string, c: char)
    requires c in Trimmed(s)
    ensures c in s
  {
    var a, b := TrimParts(s);
  }

  lemma HeaderIsClean(line: string)
    requires LF !in line && HeaderOf(line) != None
    ensures Clean(HeaderOf(line).value)
  {
    LineWithColon(line);
    NoneBefore(line, ':', 0);
    var colon := Find(line, ':', 0);
    var name, value := line[..colon], line[colon + 1..];
    var a, b := TrimParts(name);
    var c, d := TrimParts(value);
    if ':' in Trimmed(name) {
      TrimmedFrom(name, ':');
    }
    if LF in Trimmed(name) {
      TrimmedFrom(name, LF);
    }
    if LF in Trimmed(value) {
      TrimmedFrom(value, LF);
    }
  }

  lemma ParsedIsClean(block: string)
    ensures forall k :: 0 <= k < |Parsed(block).1| ==> Clean(Parsed(block).1[k])
  {
    var lines := Split(block, LF);
    HeadersInOrder(lines);
    SplitParts(block, LF, 0);
    forall k | 0 <= k < |Parsed(block).1|
      ensures Clean(Parsed(block).1[k])
    {
      HeaderIsClean(lines[k]);
    }
  }

  /** Printed headers parse back exactly when each is one a line can carry. */
  lemma PrintParsesIff(headers: seq<HttpHeader>, eol: string)
    requires IsEol(eol)
    ensures Parsed(Print(headers, eol)) == (Ok, headers) <==> forall k :: 0 <= k < |headers| ==> Clean(headers[k])
  {
    ParsedIsClean(Print(headers, eol));
    if headers != [] && forall k :: 0 <= k < |headers| ==> Clean(headers[k]) {
      var cr := eol[..|eol| - 1];
      assert eol == cr + [LF];
      PrintedLinesParse(headers, cr);
    }
  }

  /** What was parsed from any block prints, with either line ending, to a block that parses to the same list. */
  lemma ParsePrintParse(block: string, eol: string)
    requires IsEol(eol)
    ensures Parsed(Print(Parsed(block).1, eol)) == (Ok, Parsed(block).1)
  {
    ParsedIsClean(block);
    PrintParsesIff(Parsed(block).1, eol);
  }
}
