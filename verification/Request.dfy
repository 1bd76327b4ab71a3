/** `hx.issue.request_bytes`: one HTTP/1.1 request, or a ValueError. */
module Request {
  import opened Options
  import opened Utf8
  import opened Chars
  import opened Text
  import Json

  const CR: Code := 13
  const LF: Code := 10
  const SP: Code := 32
  const TAB: Code := 9
  const COLON: Code := 58

  type Str = seq<Code>

  const HOST_KEY: Str := [104, 111, 115, 116]
  const LENGTH_KEY: Str := [99, 111, 110, 116, 101, 110, 116, 45, 108, 101, 110, 103, 116, 104]
  const ENCODING_KEY: Str :=
    [116, 114, 97, 110, 115, 102, 101, 114, 45, 101, 110, 99, 111, 100, 105, 110, 103]
  const VERSION: Str := [72, 84, 84, 80, 47, 49, 46, 49]
  const HOST_PREFIX: Str := [72, 111, 115, 116, COLON, SP]
  const LENGTH_PREFIX: Str := [67, 111, 110, 116, 101, 110, 116, 45, 76, 101, 110, 103, 116, 104, COLON, SP]

  /** Nothing in it ends a line or a string. */
  predicate Clean1(s: Str) {
    CR !in s && LF !in s && 0 !in s
  }

  /** `str.isspace`, on the Latin-1 a request can be encoded from. */
  predicate PySpace(c: Code) {
    9 <= c <= 13 || 28 <= c <= 32 || c == 0x85 || c == 0xA0
  }

  predicate Ows(c: Code) {
    c == SP || c == TAB
  }

  /** Optional whitespace of the field syntax, or all that Python strips. */
  predicate Blank(c: Code, ows: bool) {
    if ows then Ows(c) else PySpace(c)
  }

  function TrimLeft(s: Str, ows: bool): Str {
    if s != [] && Blank(s[0], ows) then TrimLeft(s[1..], ows) else s
  }

  function TrimRight(s: Str, ows: bool): Str {
    if s != [] && Blank(s[|s| - 1], ows) then TrimRight(s[..|s| - 1], ows) else s
  }

  function Trim(s: Str, ows: bool): Str {
    TrimRight(TrimLeft(s, ows), ows)
  }

  function Name(line: Str): Str {
    line[..Find(line, COLON)]
  }

  function Value(line: Str): Str {
    if Find(line, COLON) < |line| then line[Find(line, COLON) + 1..] else []
  }

  function Key(line: Str): Str {
    Lower(Trim(Name(line), false))
  }

  /** A header line this side will put on the wire at all. */
  predicate Fielded(line: Str) {
    Find(line, COLON) < |line| && Name(line) != [] && !Ows(Name(line)[0])
  }

  /** Digits with single underscores between, as `int()` reads them. */
  function PyDigits(s: Str): Option<nat> {
    if s == [] || !IsDigit(s[|s| - 1]) then None
    else
      var d: nat := s[|s| - 1] as int - 48;
      var before := s[..|s| - 1];
      if before == [] then Some(d)
      else
        var high := if before[|before| - 1] == 95 then PyDigits(before[..|before| - 1]) else PyDigits(before);
        if high.None? then None else Some(high.value * 10 + d)
  }

  /** `int(value.strip())`. */
  function PyInt(value: Str): Option<int> {
    var s := Trim(value, false);
    if s != [] && s[0] == 45 then (match PyDigits(s[1..]) case None => None case Some(n) => Some(-(n as int)))
    else if s != [] && s[0] == 43 then (match PyDigits(s[1..]) case None => None case Some(n) => Some(n as int))
    else (match PyDigits(s) case None => None case Some(n) => Some(n as int))
  }

  predicate HeaderOk(line: Str, length: nat) {
    && Clean1(line) && Fielded(line) && Key(line) != ENCODING_KEY
    && (Key(line) == LENGTH_KEY ==> PyInt(Value(line)) == Some(length))
  }

  function Having(lines: seq<Str>, key: Str): nat {
    if lines == [] then 0
    else Having(lines[..|lines| - 1], key) + if Key(lines[|lines| - 1]) == key then 1 else 0
  }

  /** What the caller's arguments have to be. */
  predicate Accepted(verb: Str, path: Str, headers: seq<Str>, length: nat) {
    && Clean1(verb) && verb != [] && SP !in verb
    && Clean1(path) && path != [] && path[0] == 47 && SP !in path
    && (forall i :: 0 <= i < |headers| ==> HeaderOk(headers[i], length))
    && Having(headers, HOST_KEY) <= 1
  }

  /** The lines of the head: a Host of our own if the caller gave none, and a
      length of our own if there is a body whose length the caller did not give. */
  function Fields(host: Str, headers: seq<Str>, length: nat): seq<Str> {
    (if Having(headers, HOST_KEY) == 0 then [HOST_PREFIX + host] else [])
    + headers
    + (if length > 0 && Having(headers, LENGTH_KEY) == 0 then [LENGTH_PREFIX + Json.Decimal(length)] else [])
  }

  function StartLine(verb: Str, path: Str): Str {
    verb + [SP] + path + [SP] + VERSION
  }

  predicate AllLatin1(lines: seq<Str>) {
    forall i :: 0 <= i < |lines| ==> Latin1(lines[i])
  }

  /** Lines, each ended, and the blank one after them. */
  function Wire(lines: seq<Str>): (b: seq<Byte>)
    requires AllLatin1(lines)
  {
    if lines == [] then [CR, LF]
    else
      assert Latin1(lines[0]) && AllLatin1(lines[1..]);
      lines[0] + [CR, LF] + Wire(lines[1..])
  }

  /** The request, or None for every ValueError. */
  function Built(verb: Str, path: Str, host: Str, headers: seq<Str>, body: seq<Byte>): Option<seq<Byte>> {
    var lines := [StartLine(verb, path)] + Fields(host, headers, |body|);
    if Accepted(verb, path, headers, |body|) && AllLatin1(lines) then Some(Wire(lines) + body) else None
  }

  lemma HavingAppend(lines: seq<Str>, line: Str, key: Str)
    ensures Having(lines + [line], key) == Having(lines, key) + if Key(line) == key then 1 else 0
  {
    assert (lines + [line])[..|lines|] == lines;
  }

  /** Header by header, refusing the first that is wrong. */
  method RequestBytes(verb: Str, path: Str, host: Str, headers: seq<Str>, body: seq<Byte>)
    returns (r: Option<seq<Byte>>)
    ensures r == Built(verb, path, host, headers, body)
  {
    hide Clean1, Fielded, Key, PyInt, Wire, AllLatin1;
    if !Clean1(verb) || !Clean1(path) {
      return None;
    }
    if SP in verb || verb == [] {
      return None;
    }
    if path == [] || path[0] != 47 {
      return None;
    }
    if SP in path {
      return None;
    }
    var lines := [StartLine(verb, path)];
    var given: seq<Str> := [];
    var hasLength := false;
    var hosts := 0;
    for n := 0 to |headers|
      invariant given == headers[..n]
      invariant forall i :: 0 <= i < n ==> HeaderOk(headers[i], |body|)
      invariant hasLength <==> Having(given, LENGTH_KEY) > 0
      invariant hosts == Having(given, HOST_KEY)
    {
      var line := headers[n];
      assert headers[..n + 1] == headers[..n] + [line];
      HavingAppend(given, line, LENGTH_KEY);
      HavingAppend(given, line, HOST_KEY);
      if !Clean1(line) || !Fielded(line) || Key(line) == ENCODING_KEY {
        return None;
      }
      if Key(line) == LENGTH_KEY {
        if PyInt(Value(line)) != Some(|body|) {
          return None;
        }
        hasLength := true;
      }
      if Key(line) == HOST_KEY {
        hosts := hosts + 1;
      }
      given := given + [line];
    }
    assert headers[..|headers|] == headers;
    if hosts > 1 {
      return None;
    }
    if hosts == 0 {
      lines := lines + [HOST_PREFIX + host];
    }
    lines := lines + given;
    if body != [] && !hasLength {
      lines := lines + [LENGTH_PREFIX + Json.Decimal(|body|)];
    }
    assert lines == [StartLine(verb, path)] + Fields(host, headers, |body|);
    if !AllLatin1(lines) {
      return None;
    }
    r := Some(Wire(lines) + body);
  }
}
