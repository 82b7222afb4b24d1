/** JSON Pointers (RFC 6901) as src/core/json-path.cpp reads them: token decoding, index parsing, path
    parsing and path resolution, against the printer that writes flattened keys. */
module JsonPath {
  import opened Statuses
  import opened Texts
  import opened Numerals
  import opened JsonTree

  // ------------------------------------------------------------ tokens

  /** A key as it is written inside a path: `~` as `~0`, `/` as `~1`. */
  function Escape(token: string): string {
    if token == "" then ""
    else
      (if token[0] == '~' then "~0" else if token[0] == '/' then "~1" else [token[0]]) + Escape(token[1..])
  }

  function Cons(c: char, rest: Option<string>): Option<string> {
    if rest == None then None else Some([c] + rest.value)
  }

  /** Each escape is decoded once, left to right. */
  function Unescape(raw: string): Option<string>
    decreases |raw|
  {
    if raw == "" then Some("")
    else if raw[0] != '~' then Cons(raw[0], Unescape(raw[1..]))
    else if |raw| < 2 then None
    else if raw[1] == '1' then Cons('/', Unescape(raw[2..]))
    else if raw[1] == '0' then Cons('~', Unescape(raw[2..]))
    else None
  }

  /** What decoding yields after `front` has been decoded. */
  function Joined(front: string, rest: Option<string>): Option<string> {
    if rest == None then None else Some(front + rest.value)
  }

  lemma JoinedCons(front: string, c: char, rest: Option<string>)
    ensures Joined(front, Cons(c, rest)) == Joined(front + [c], rest)
    ensures Joined("", rest) == rest
  {
    if rest != None {
      assert front + ([c] + rest.value) == front + [c] + rest.value;
      assert "" + rest.value == rest.value;
    }
  }

  method DecodeToken(raw: string) returns (ok: bool, out: string)
    ensures ok <==> Unescape(raw) != None
    ensures ok ==> Unescape(raw) == Some(out)
  {
    out := "";
    var i := 0;
    assert raw[i..] == raw;
    JoinedCons("", ' ', Unescape(raw));
    while i < |raw|
      invariant i <= |raw|
      invariant Unescape(raw) == Joined(out, Unescape(raw[i..]))
    {
      var c := raw[i];
      if c != '~' {
        assert raw[i..][1..] == raw[i + 1..];
        JoinedCons(out, c, Unescape(raw[i + 1..]));
        out := out + [c];
        i := i + 1;
        continue;
      }
      if i + 1 >= |raw| {
        return false, out;
      }
      assert raw[i..][2..] == raw[i + 2..];
      i := i + 1;
      var next := raw[i];
      if next == '1' {
        JoinedCons(out, '/', Unescape(raw[i + 1..]));
        out := out + ['/'];
      } else if next == '0' {
        JoinedCons(out, '~', Unescape(raw[i + 1..]));
        out := out + ['~'];
      } else {
        return false, out;
      }
      i := i + 1;
    }
    assert raw[i..] == "" && out + "" == out;
    ok := true;
  }

  lemma {:induction false} UnescapeEscape(token: string)
    ensures Unescape(Escape(token)) == Some(token)
    ensures '/' !in Escape(token)
  {
    if token != "" {
      UnescapeEscape(token[1..]);
      var e := Escape(token);
      if token[0] == '~' || token[0] == '/' {
        assert e[2..] == Escape(token[1..]);
      } else {
        assert e[1..] == Escape(token[1..]);
      }
      assert token == [token[0]] + token[1..];
    }
  }

  /** A token has one spelling: decoding loses nothing. */
  lemma {:induction false} EscapeUnescape(raw: string)
    requires '/' !in raw && Unescape(raw) != None
    ensures Escape(Unescape(raw).value) == raw
    decreases |raw|
  {
    if raw != "" {
      var k := if raw[0] == '~' then 2 else 1;
      EscapeUnescape(raw[k..]);
      var token := Unescape(raw).value;
      assert token[1..] == Unescape(raw[k..]).value;
      assert raw == raw[..k] + raw[k..];
    }
  }

  /** The escapes of section 3 of RFC 6901, and nothing else, one byte after the other. */
  lemma {:induction false} EscapeSpells(a: string, b: string, c: char)
    ensures Escape(a + b) == Escape(a) + Escape(b)
    ensures Escape([c]) == if c == '~' then ['~', '0'] else if c == '/' then ['~', '1'] else [c]
  {
    assert [c][1..] == [] && Escape([]) == [];
    if a == "" {
      assert a + b == b;
    } else {
      EscapeSpells(a[1..], b, c);
      assert (a + b)[1..] == a[1..] + b;
    }
  }

  /** A `~` that starts no escape. */
  predicate BadTilde(s: string, i: nat) {
    i < |s| && s[i] == '~' && (i + 1 == |s| || (s[i + 1] != '0' && s[i + 1] != '1'))
  }

  /** A raw token is refused exactly for a `~` that starts no escape. */
  lemma {:induction false} UnescapeFails(raw: string)
    ensures Unescape(raw) == None <==> exists i :: 0 <= i < |raw| && BadTilde(raw, i)
    decreases |raw|
  {
    if raw != "" && !BadTilde(raw, 0) {
      var k := if raw[0] == '~' then 2 else 1;
      var rest := raw[k..];
      UnescapeFails(rest);
      forall i: nat | i < |rest|
        ensures BadTilde(rest, i) <==> BadTilde(raw, k + i)
      {
      }
      if exists i :: 0 <= i < |raw| && BadTilde(raw, i) {
        var i :| 0 <= i < |raw| && BadTilde(raw, i);
        assert i >= k && BadTilde(rest, i - k);
      }
      if exists i :: 0 <= i < |rest| && BadTilde(rest, i) {
        var i :| 0 <= i < |rest| && BadTilde(rest, i);
        assert BadTilde(raw, k + i);
      }
    }
  }

  lemma {:induction false} EscapeDigits(s: string)
    requires AllDigits(s)
    ensures Escape(s) == s
  {
    if s != "" {
      EscapeDigits(s[1..]);
    }
  }

  // ------------------------------------------------------------ indices

  /** A canonical decimal below 2^32; everything else has its own error. */
  function IndexOfToken(token: string): Result<u32> {
    if token == "-" then Failure(IndexOutOfRange)
    else if !Canonical(token) then Failure(TypeMismatch)
    else if Value(token) >= TWO_32 then Failure(IndexOutOfRange)
    else Success(Value(token))
  }

  /** The number at the front of a text of digits, unless it does not fit 32 bits. */
  method FromChars(token: string) returns (r: Result<u32>)
    requires AllDigits(token)
    ensures r == if Value(token) < TWO_32 then Success(Value(token)) else Failure(IndexOutOfRange)
  {
    var value := 0;
    var i := 0;
    while i < |token|
      invariant i <= |token| && value == Value(token[..i]) && value < TWO_32
    {
      assert token[..i + 1][..i] == token[..i];
      value := 10 * value + DigitValue(token[i]);
      i := i + 1;
      if value >= TWO_32 {
        assert token[..i] + token[i..] == token;
        ValueGrows(token[..i], token[i..]);
        return Failure(IndexOutOfRange);
      }
    }
    assert token[..i] == token;
    return Success(value);
  }

  method ParseIndex(token: string) returns (r: Result<u32>)
    ensures r == IndexOfToken(token)
  {
    if token == "-" {
      return Failure(IndexOutOfRange);
    }
    if token == "" || (|token| > 1 && token[0] == '0') {
      return Failure(TypeMismatch);
    }
    for i := 0 to |token|
      invariant AllDigits(token[..i])
    {
      if !IsDigit(token[i]) {
        return Failure(TypeMismatch);
      }
    }
    assert token[..|token|] == token;
    r := FromChars(token);
  }

  /** The accepted index texts are exactly the decimal numerals below 2^32. */
  lemma IndexIff(token: string, n: u32)
    ensures IndexOfToken(token) == Success(n) <==> token == Decimal(n)
  {
    DecimalIsCanonical(n);
    if IndexOfToken(token) == Success(n) {
      CanonicalIsDecimal(token);
    }
  }

  // ------------------------------------------------------------ paths

  /** The path that names a list of tokens. */
  function Print(tokens: seq<string>): string {
    if tokens == [] then "" else ['/'] + Escape(tokens[0]) + Print(tokens[1..])
  }

  lemma PrintFirst(first: string, others: seq<string>)
    ensures Print([first] + others) == (['/'] + Escape(first)) + Print(others)
  {
    assert ([first] + others)[1..] == others;
  }

  lemma SnocAssoc(first: string, rest: string, last: string)
    ensures first + (rest + ['/'] + last) == first + rest + ['/'] + last
  {
  }

  /** One token more. */
  lemma {:induction false} PrintSnoc(tokens: seq<string>, token: string)
    ensures Print(tokens + [token]) == Print(tokens) + ['/'] + Escape(token)
  {
    if tokens == [] {
      PrintFirst(token, []);
      assert [token] + [] == [] + [token];
    } else {
      var first, others := tokens[0], tokens[1..];
      PrintSnoc(others, token);
      PrintFirst(first, others);
      PrintFirst(first, others + [token]);
      assert tokens == [first] + others;
      assert tokens + [token] == [first] + (others + [token]);
      SnocAssoc(['/'] + Escape(first), Print(others), Escape(token));
    }
  }

  function Push(token: string, rest: Result<seq<string>>): Result<seq<string>> {
    if rest.Failure? then rest else Success([token] + rest.value)
  }

  function DecodeAll(raws: seq<string>): Result<seq<string>> {
    if raws == [] then Success([])
    else if Unescape(raws[0]) == None then Failure(PathSyntaxError)
    else Push(Unescape(raws[0]).value, DecodeAll(raws[1..]))
  }

  function TokensOf(path: string): Result<seq<string>> {
    if path == "" then Success([])
    else if path[0] != '/' then Failure(PathSyntaxError)
    else DecodeAll(SplitFrom(path, '/', 1))
  }

  /** A string view: it may lack a data pointer. */
  datatype View = NullView | View(text: string)

  function TokensOfView(path: View): Result<seq<string>> {
    if path == NullView then Failure(InvalidArgument) else TokensOf(path.text)
  }

  function Extended(front: seq<string>, rest: Result<seq<string>>): Result<seq<string>> {
    if rest.Failure? then rest else Success(front + rest.value)
  }

  lemma ExtendedPush(front: seq<string>, token: string, rest: Result<seq<string>>)
    ensures Extended(front, Push(token, rest)) == Extended(front + [token], rest)
    ensures Extended([], rest) == rest
  {
    if rest.Success? {
      assert front + ([token] + rest.value) == front + [token] + rest.value;
      assert [] + rest.value == rest.value;
    }
  }

  method ParsePath(path: View) returns (r: Result<seq<string>>)
    ensures r == TokensOfView(path)
  {
    if path == NullView {
      return Failure(InvalidArgument);
    }
    var text := path.text;
    if text == "" {
      return Success([]);
    }
    if text[0] != '/' {
      return Failure(PathSyntaxError);
    }
    var tokens: seq<string> := [];
    var start := 1;
    ExtendedPush([], "", TokensOf(text));
    while true
      invariant start <= |text|
      invariant TokensOf(text) == Extended(tokens, DecodeAll(SplitFrom(text, '/', start)))
      decreases |text| - start
    {
      ghost var raws := SplitFrom(text, '/', start);
      var end := Find(text, '/', start);
      var ok, token := DecodeToken(text[start..end]);
      if !ok {
        return Failure(PathSyntaxError);
      }
      ExtendedPush(tokens, token, DecodeAll(raws[1..]));
      tokens := tokens + [token];
      if end == |text| {
        assert tokens + [] == tokens;
        break;
      }
      start := end + 1;
    }
    return Success(tokens);
  }

  /** The first token of a printed path, and what follows it. */
  lemma SplitPrinted(tokens: seq<string>)
    requires tokens != []
    ensures var rest := Print(tokens[1..]);
            SplitFrom(Print(tokens), '/', 1) ==
            [Escape(tokens[0])] + if rest == "" then [] else SplitFrom(rest, '/', 1)
  {
    var path, part, rest := Print(tokens), Escape(tokens[0]), Print(tokens[1..]);
    UnescapeEscape(tokens[0]);
    assert path == (['/'] + part) + rest;
    assert path[1..1 + |part|] == part;
    FindIs(path, '/', 1, 1 + |part|);
    if rest != "" {
      SplitShift(['/'] + part, rest, '/', 1);
    }
  }

  /** Parsing what was printed gives the tokens back, for every token list. */
  lemma {:induction false} ParsePrint(tokens: seq<string>)
    ensures TokensOf(Print(tokens)) == Success(tokens)
  {
    if tokens != [] {
      ParsePrint(tokens[1..]);
      SplitPrinted(tokens);
      UnescapeEscape(tokens[0]);
      var raws, rest := SplitFrom(Print(tokens), '/', 1), tokens[1..];
      assert raws[1..] == if rest == [] then [] else SplitFrom(Print(rest), '/', 1);
      assert DecodeAll(raws) == Push(tokens[0], DecodeAll(raws[1..]));
      assert tokens == [tokens[0]] + rest;
    }
  }

  /** The text that splits into these raw tokens. */
  function Glue(raws: seq<string>): string {
    if raws == [] then "" else ['/'] + raws[0] + Glue(raws[1..])
  }

  lemma {:induction false} GlueSplit(s: string, start: nat)
    requires start <= |s|
    ensures Glue(SplitFrom(s, '/', start)) == ['/'] + s[start..]
    decreases |s| - start
  {
    var end := Find(s, '/', start);
    var raws := SplitFrom(s, '/', start);
    if end < |s| {
      GlueSplit(s, end + 1);
      assert raws[1..] == SplitFrom(s, '/', end + 1);
      assert s[start..] == s[start..end] + (['/'] + s[end + 1..]);
    } else {
      assert Glue(raws[1..]) == "";
    }
  }

  lemma {:induction false} PrintDecoded(raws: seq<string>)
    requires forall k :: 0 <= k < |raws| ==> '/' !in raws[k]
    requires DecodeAll(raws).Success?
    ensures Print(DecodeAll(raws).value) == Glue(raws)
  {
    if raws != [] {
      EscapeUnescape(raws[0]);
      PrintDecoded(raws[1..]);
      assert DecodeAll(raws).value[1..] == DecodeAll(raws[1..]).value;
    }
  }

  /** Every accepted path prints back byte for byte. */
  lemma PrintParse(path: string)
    requires TokensOf(path).Success?
    ensures Print(TokensOf(path).value) == path
  {
    if path != "" {
      SplitParts(path, '/', 1);
      PrintDecoded(SplitFrom(path, '/', 1));
      GlueSplit(path, 1);
    }
  }

  lemma TildeInPart(s: string, start: nat, end: nat, i: nat)
    requires start <= i < end <= |s| && (end == |s| || s[end] == '/')
    ensures BadTilde(s[start..end], i - start) <==> BadTilde(s, i)
  {
  }

  /** The tokens from `start` on cannot be decoded exactly when a `~` there starts no escape. */
  lemma {:induction false} DecodeFails(s: string, start: nat)
    requires start <= |s|
    ensures DecodeAll(SplitFrom(s, '/', start)).Failure? <==> exists i :: start <= i < |s| && BadTilde(s, i)
    ensures DecodeAll(SplitFrom(s, '/', start)).Failure? ==> DecodeAll(SplitFrom(s, '/', start)) == Failure(PathSyntaxError)
    decreases |s| - start
  {
    var end := Find(s, '/', start);
    var part, raws := s[start..end], SplitFrom(s, '/', start);
    UnescapeFails(part);
    forall i: nat | start <= i < end
      ensures BadTilde(part, i - start) <==> BadTilde(s, i)
    {
      TildeInPart(s, start, end, i);
    }
    if exists i :: 0 <= i < |part| && BadTilde(part, i) {
      var i :| 0 <= i < |part| && BadTilde(part, i);
      assert BadTilde(s, start + i);
    }
    if end < |s| {
      DecodeFails(s, end + 1);
      assert raws[1..] == SplitFrom(s, '/', end + 1);
      assert !BadTilde(s, end);
    } else {
      assert raws[1..] == [];
    }
  }

  /** Which paths are refused: those without data, those that do not start with `/`, and those with a `~` that
      starts no escape. */
  lemma PathFails(path: View, error: Status)
    ensures TokensOfView(path) == Failure(error) <==>
            match path
            case NullView => error == InvalidArgument
            case View(text) =>
              && error == PathSyntaxError && text != ""
              && (text[0] != '/' || exists i :: 0 <= i < |text| && BadTilde(text, i))
  {
    if path.View? && path.text != "" && path.text[0] == '/' {
      DecodeFails(path.text, 1);
      assert !BadTilde(path.text, 0);
    }
  }

  /** Two token lists never share a path. */
  lemma PrintInjective(a: seq<string>, b: seq<string>)
    requires Print(a) == Print(b)
    ensures a == b
  {
    ParsePrint(a);
    ParsePrint(b);
  }

  // ------------------------------------------------------------ resolution

  /** The position of the first field with this key, or the field count. */
  function FindField(fields: seq<Field>, key: string): (i: nat)
    ensures i <= |fields|
    ensures i < |fields| ==> fields[i].key == key
    ensures forall j :: 0 <= j < i ==> fields[j].key != key
  {
    if fields == [] || fields[0].key == key then 0 else 1 + FindField(fields[1..], key)
  }

  /** One token applied to one node. */
  function Descend(node: Json, token: string): Result<Json> {
    match node
    case Object(fields) =>
      var i := FindField(fields, token);
      if i == |fields| then Failure(PathNotFound) else Success(fields[i].value)
    case Array(elems) =>
      var index := IndexOfToken(token);
      if index.Failure? then Failure(index.error)
      else if index.value >= |elems| then Failure(IndexOutOfRange)
      else Success(elems[index.value])
    case _ => Failure(TypeMismatch)
  }

  function Walk(node: Json, tokens: seq<string>): Result<Json>
    decreases |tokens|
  {
    if tokens == [] then Success(node)
    else
      var child := Descend(node, tokens[0]);
      if child.Failure? then child else Walk(child.value, tokens[1..])
  }

  function Resolve(document: Json, path: View): Result<Json> {
    var tokens := TokensOfView(path);
    if tokens.Failure? then Failure(tokens.error) else Walk(document, tokens.value)
  }

  /** Why a token leads nowhere from a node. */
  ghost predicate BadToken(node: Json, token: string, error: Status) {
    match node
    case Object(fields) => error == PathNotFound && forall k :: 0 <= k < |fields| ==> fields[k].key != token
    case Array(elems) =>
      || (error == TypeMismatch && token != "-" && forall n: nat :: token != Decimal(n))
      || (error == IndexOutOfRange &&
          (token == "-" || exists n: nat :: token == Decimal(n) && (n >= |elems| || n > 0xFFFF_FFFF)))
    case _ => error == TypeMismatch
  }

  lemma NumeralIsNoDash(n: nat)
    ensures Decimal(n) != "-"
  {
    DecimalIsCanonical(n);
    assert IsDigit(Decimal(n)[0]);
  }

  lemma IndexFails(token: string, error: Status)
    ensures IndexOfToken(token) == Failure(error) <==>
            || (error == TypeMismatch && token != "-" && forall n: nat :: token != Decimal(n))
            || (error == IndexOutOfRange && (token == "-" || exists n: nat :: token == Decimal(n) && n > 0xFFFF_FFFF))
  {
    if Canonical(token) {
      CanonicalIsDecimal(token);
    }
    forall n: nat
      ensures token == Decimal(n) ==> Canonical(token) && Value(token) == n && token != "-"
    {
      DecimalIsCanonical(n);
      NumeralIsNoDash(n);
    }
  }

  lemma DescendFails(node: Json, token: string, error: Status)
    ensures Descend(node, token) == Failure(error) <==> BadToken(node, token, error)
  {
    match node {
      case Object(fields) =>
        var i := FindField(fields, token);
        assert i < |fields| ==> fields[i].key == token;
      case Array(elems) => ElementFails(elems, token, error);
      case _ =>
    }
  }

  /** What a numeral is read as. */
  lemma NumeralRead(token: string, n: nat)
    requires token == Decimal(n)
    ensures IndexOfToken(token) == if n <= 0xFFFF_FFFF then Success(n) else Failure(IndexOutOfRange)
  {
    DecimalIsCanonical(n);
    NumeralIsNoDash(n);
  }

  lemma ElementFails(elems: seq<Json>, token: string, error: Status)
    ensures Descend(Array(elems), token) == Failure(error) <==> BadToken(Array(elems), token, error)
  {
    var index := IndexOfToken(token);
    if n: nat :| token == Decimal(n) {
      NumeralRead(token, n);
      NumeralIsNoDash(n);
      forall m: nat | token == Decimal(m)
        ensures m == n
      {
        DecimalInjective(m, n);
      }
    } else {
      IndexFails(token, error);
      if index.Failure? {
        IndexFails(token, index.error);
      } else {
        IndexIff(token, index.value);
      }
    }
  }

  /** Token `k` is the first that leads nowhere, and this is why. */
  ghost predicate FirstBadToken(node: Json, tokens: seq<string>, k: nat, error: Status) {
    && k < |tokens| && Walk(node, tokens[..k]).Success?
    && BadToken(Walk(node, tokens[..k]).value, tokens[k], error)
  }

  lemma {:induction false} WalkSplits(node: Json, tokens: seq<string>, k: nat)
    requires k <= |tokens|
    ensures Walk(node, tokens) ==
            var front := Walk(node, tokens[..k]);
            if front.Failure? then front else Walk(front.value, tokens[k..])
    decreases k
  {
    if k == 0 {
      assert tokens[0..] == tokens;
    } else {
      assert tokens[..k][1..] == tokens[1..][..k - 1];
      assert tokens[k..] == tokens[1..][k - 1..];
      var child := Descend(node, tokens[0]);
      if child.Success? {
        WalkSplits(child.value, tokens[1..], k - 1);
      }
    }
  }

  /** A walk fails with the error of the first token that leads nowhere. */
  lemma {:induction false} WalkFails(node: Json, tokens: seq<string>, error: Status)
    ensures Walk(node, tokens) == Failure(error) <==> exists k: nat :: FirstBadToken(node, tokens, k, error)
  {
    if exists k: nat :: FirstBadToken(node, tokens, k, error) {
      var k: nat :| FirstBadToken(node, tokens, k, error);
      WalkSplits(node, tokens, k);
      DescendFails(Walk(node, tokens[..k]).value, tokens[k], error);
    }
    if Walk(node, tokens) == Failure(error) {
      var k := FailingToken(node, tokens);
    }
  }

  lemma {:induction false} FailingToken(node: Json, tokens: seq<string>) returns (k: nat)
    requires Walk(node, tokens).Failure?
    ensures FirstBadToken(node, tokens, k, Walk(node, tokens).error)
    decreases |tokens|
  {
    var child := Descend(node, tokens[0]);
    if child.Failure? {
      DescendFails(node, tokens[0], child.error);
      assert tokens[..0] == [];
      k := 0;
    } else {
      k := FailingToken(child.value, tokens[1..]);
      assert tokens[..k + 1][1..] == tokens[1..][..k];
      k := k + 1;
    }
  }

  method FindKey(fields: seq<Field>, key: string) returns (i: nat)
    ensures i == FindField(fields, key)
  {
    i := 0;
    while i < |fields| && fields[i].key != key
      invariant i <= |fields| && FindField(fields, key) == i + FindField(fields[i..], key)
    {
      i := i + 1;
    }
  }

  method ResolveTokens(document: Json, tokens: seq<string>) returns (r: Result<Json>)
    ensures r == Walk(document, tokens)
  {
    var current := document;
    for k := 0 to |tokens|
      invariant Walk(document, tokens) == Walk(current, tokens[k..])
    {
      var token := tokens[k];
      assert tokens[k..][1..] == tokens[k + 1..];
      if current.Object? {
        var i := FindKey(current.fields, token);
        if i == |current.fields| {
          return Failure(PathNotFound);
        }
        current := current.fields[i].value;
      } else if current.Array? {
        var index := ParseIndex(token);
        if index.Failure? {
          return Failure(index.error);
        }
        if index.value >= |current.elems| {
          return Failure(IndexOutOfRange);
        }
        current := current.elems[index.value];
      } else {
        return Failure(TypeMismatch);
      }
    }
    return Success(current);
  }

  method ResolvePath(document: Json, path: View) returns (r: Result<Json>)
    ensures r == Resolve(document, path)
  {
    var tokens := ParsePath(path);
    if tokens.Failure? {
      return Failure(tokens.error);
    }
    r := ResolveTokens(document, tokens.value);
  }
}
