/** What a strict HTTP/1.1 recipient makes of the bytes `hx.issue` builds, and what
    this repository's own readers recover from them. */
module RequestParser {
  import opened Options
  import opened Utf8
  import opened Chars
  import opened Text
  import opened Request
  import Json

  const EOL: seq<Byte> := [CR, LF]

  predicate LineEnd(b: Byte) {
    b == CR || b == LF
  }

  predicate NoLineEnd(s: seq<Code>) {
    CR !in s && LF !in s
  }

  // ---- a strict recipient ----

  function ToLineEnd(b: seq<Byte>): (n: nat)
    ensures n <= |b| && (n < |b| ==> LineEnd(b[n])) && NoLineEnd(b[..n])
  {
    if b == [] || LineEnd(b[0]) then 0
    else
      var n := 1 + ToLineEnd(b[1..]);
      assert b[..n] == [b[0]] + b[1..][..n - 1];
      n
  }

  /** A line ended by CRLF; a bare CR or LF is no line end and no data. */
  function ReadLine(b: seq<Byte>): (r: Option<(seq<Byte>, seq<Byte>)>)
    ensures r.Some? ==> |r.value.1| < |b| && NoLineEnd(r.value.0)
  {
    var n := ToLineEnd(b);
    if n + 1 < |b| && b[n] == CR && b[n + 1] == LF then Some((b[..n], b[n + 2..])) else None
  }

  /** A `tchar` (section 5.6.2 of RFC 9110). */
  predicate TokenChar(c: Code) {
    48 <= c <= 57 || 65 <= c <= 90 || 97 <= c <= 122
    || c == 33 || 35 <= c <= 39 || c == 42 || c == 43 || c == 45 || c == 46 || 94 <= c <= 96 || c == 124 || c == 126
  }

  predicate Token(s: Str) {
    s != [] && forall i :: 0 <= i < |s| ==> TokenChar(s[i])
  }

  /** A target with no control character, no whitespace and nothing past ASCII. */
  predicate Visible(s: Str) {
    s != [] && forall i :: 0 <= i < |s| ==> 33 <= s[i] <= 126
  }

  /** The name a recipient goes by: nothing may stand between it and the colon
      (section 5.1 of RFC 9112), so nothing is stripped. */
  function FieldKey(line: Str): Str {
    Lower(Name(line))
  }

  predicate FieldLine(line: Str) {
    Find(line, COLON) < |line| && Token(Name(line)) && Clean1(line)
  }

  /** Field lines down to the blank one. */
  function ReadFields(b: seq<Byte>): Option<(seq<Str>, seq<Byte>)>
    decreases |b|
  {
    var line := ReadLine(b);
    if line.None? then None
    else if line.value.0 == [] then Some(([], line.value.1))
    else if !FieldLine(line.value.0) then None
    else
      var more := ReadFields(line.value.1);
      if more.None? then None else Some(([line.value.0] + more.value.0, more.value.1))
  }

  /** A Content-Length value: one or more digits. */
  function StrictLength(value: Str): Option<nat> {
    var s := Trim(value, true);
    if AllDigits(s) then Some(Json.NatOf(s)) else None
  }

  predicate PlainLengths(lines: seq<Str>) {
    forall i :: 0 <= i < |lines| && FieldKey(lines[i]) == LENGTH_KEY ==> StrictLength(Value(lines[i])).Some?
  }

  /** How many lines go by a name. */
  function Named(lines: seq<Str>, key: Str): nat {
    if lines == [] then 0
    else Named(lines[..|lines| - 1], key) + if FieldKey(lines[|lines| - 1]) == key then 1 else 0
  }

  /** The one length every Content-Length line gives, zero if there is none. */
  function Framing(lines: seq<Str>): Option<nat> {
    if lines == [] then Some(0)
    else
      var last := lines[|lines| - 1];
      var before := Framing(lines[..|lines| - 1]);
      if before.None? || FieldKey(last) == ENCODING_KEY then None
      else if FieldKey(last) != LENGTH_KEY then before
      else
        var n := StrictLength(Value(last));
        if n.None? then None
        else if Named(lines[..|lines| - 1], LENGTH_KEY) > 0 && before != n then None
        else n
  }

  datatype Parsed = Parsed(verb: Str, target: Str, fields: seq<Str>, body: seq<Byte>, rest: seq<Byte>)

  /** One request off the front of a connection. */
  function Parse(b: seq<Byte>): Option<Parsed> {
    var start := ReadLine(b);
    if start.None? then None
    else
      var words := Split<Code>(start.value.0, SP);
      if |words| != 3 || !Token(words[0]) || !Visible(words[1]) || words[2] != VERSION then None
      else
        var fields := ReadFields(start.value.1);
        if fields.None? then None
        else
          var (lines, after) := fields.value;
          var n := Framing(lines);
          if n.None? || Named(lines, HOST_KEY) != 1 || |after| < n.value then None
          else Some(Parsed(words[0], words[1], lines, after[..n.value], after[n.value..]))
  }

  // ---- reading back what was written ----

  lemma {:induction false} ToEnd(line: seq<Byte>, rest: seq<Byte>)
    requires NoLineEnd(line)
    ensures ToLineEnd(line + EOL + rest) == |line|
  {
    var b := line + EOL + rest;
    if line != [] {
      ToEnd(line[1..], rest);
      assert b[1..] == line[1..] + EOL + rest;
    }
  }

  lemma LineReadsBack(line: seq<Byte>, rest: seq<Byte>)
    requires NoLineEnd(line)
    ensures ReadLine(line + EOL + rest) == Some((line, rest))
  {
    ToEnd(line, rest);
    var b := line + EOL + rest;
    assert b[|line|] == CR && b[|line| + 1] == LF && b[..|line|] == line && b[|line| + 2..] == rest;
  }

  /** Not the blank line, and no more than one. */
  predicate Sendable(line: Str) {
    NoLineEnd(line) && line != []
  }

  lemma WireStep(lines: seq<Str>, rest: seq<Byte>)
    requires AllLatin1(lines) && lines != []
    ensures Latin1(lines[0]) && AllLatin1(lines[1..])
    ensures Wire(lines) + rest == lines[0] + EOL + (Wire(lines[1..]) + rest)
  {
  }

  predicate AllFieldLines(lines: seq<Str>) {
    forall i :: 0 <= i < |lines| ==> FieldLine(lines[i])
  }

  /** Lines that keep to themselves are read back, or one of them is refused. */
  lemma {:induction false} FieldsReadBack(lines: seq<Str>, rest: seq<Byte>)
    requires AllLatin1(lines) && forall i :: 0 <= i < |lines| ==> Sendable(lines[i])
    ensures ReadFields(Wire(lines) + rest) == if AllFieldLines(lines) then Some((lines, rest)) else None
  {
    if lines == [] {
      LineReadsBack([], rest);
      assert Wire([]) + rest == [] + EOL + rest;
    } else {
      WireStep(lines, rest);
      FieldsReadBack(lines[1..], rest);
      assert Sendable(lines[0]);
      hide Wire, FieldLine, ReadLine;
      LineReadsBack(lines[0], Wire(lines[1..]) + rest);
      assert [lines[0]] + lines[1..] == lines;
      FieldLinesConcat([lines[0]], lines[1..]);
    }
  }

  lemma FieldLinesConcat(a: seq<Str>, b: seq<Str>)
    ensures AllFieldLines(a + b) <==> AllFieldLines(a) && AllFieldLines(b)
  {
    hide FieldLine;
    var s := a + b;
    if AllFieldLines(s) {
      forall i | 0 <= i < |a| ensures FieldLine(a[i]) {
        assert s[i] == a[i];
      }
      forall i | 0 <= i < |b| ensures FieldLine(b[i]) {
        assert s[|a| + i] == b[i];
      }
    }
  }

  lemma {:induction false} FieldsAreLines(b: seq<Byte>)
    requires ReadFields(b).Some?
    ensures AllFieldLines(ReadFields(b).value.0)
    decreases |b|
  {
    hide ReadLine, FieldLine;
    var line := ReadLine(b).value;
    if line.0 != [] {
      FieldsAreLines(line.1);
    }
  }

  // ---- lengths ----

  lemma {:induction false} RightIsPrefix(s: Str, ows: bool)
    ensures TrimRight(s, ows) <= s
  {
    if s != [] && Blank(s[|s| - 1], ows) {
      RightIsPrefix(s[..|s| - 1], ows);
    }
  }

  lemma {:induction false} LeftAgrees(s: Str)
    requires var l := TrimLeft(s, true); l != [] && !PySpace(l[0])
    ensures TrimLeft(s, false) == TrimLeft(s, true)
  {
    if s != [] && Ows(s[0]) {
      LeftAgrees(s[1..]);
    }
  }

  lemma {:induction false} RightAgrees(s: Str)
    requires var t := TrimRight(s, true); t != [] && !PySpace(t[|t| - 1])
    ensures TrimRight(s, false) == TrimRight(s, true)
  {
    if s != [] && Ows(s[|s| - 1]) {
      RightAgrees(s[..|s| - 1]);
    }
  }

  lemma TrimDigits(s: Str)
    requires AllDigits(Trim(s, true))
    ensures Trim(s, false) == Trim(s, true)
  {
    var l := TrimLeft(s, true);
    var t := TrimRight(l, true);
    RightIsPrefix(l, true);
    assert l[0] == t[0] && IsDigit(t[0]) && IsDigit(t[|t| - 1]);
    LeftAgrees(s);
    RightAgrees(l);
  }

  lemma {:induction false} PlainDigits(s: Str)
    requires s != [] && forall i :: 0 <= i < |s| ==> IsDigit(s[i])
    ensures PyDigits(s) == Some(Json.NatOf(s))
  {
    assert IsDigit(s[|s| - 1]);
    var before := s[..|s| - 1];
    if before != [] {
      assert IsDigit(before[|before| - 1]);
      PlainDigits(before);
    } else {
      assert Json.NatOf(before) == 0;
    }
  }

  /** Where a recipient can read a length the caller gave, it reads the body's. */
  lemma LengthsAgree(line: Str, n: nat)
    requires HeaderOk(line, n) && Key(line) == LENGTH_KEY && StrictLength(Value(line)).Some?
    ensures StrictLength(Value(line)) == Some(n)
  {
    var v := Value(line);
    TrimDigits(v);
    var s := Trim(v, true);
    assert IsDigit(s[0]);
    PlainDigits(s);
  }

  predicate LineFrames(line: Str, n: nat) {
    FieldKey(line) != ENCODING_KEY
    && (FieldKey(line) == LENGTH_KEY ==> StrictLength(Value(line)).None? || StrictLength(Value(line)) == Some(n))
  }

  // ---- names ----

  /** What begins and ends in something else than whitespace is not stripped. */
  lemma NotStripped(s: Str)
    requires s != [] && !PySpace(s[0]) && !PySpace(s[|s| - 1])
    ensures Trim(s, false) == s
  {
  }

  /** A recipient and this side call a line by one name wherever the recipient can
      name it at all, or where it is one of the names this side looks for. */
  lemma OneName(line: Str)
    requires Token(Name(line)) || FieldKey(line) in {HOST_KEY, LENGTH_KEY, ENCODING_KEY}
    ensures Key(line) == FieldKey(line)
  {
    var name := Name(line);
    assert |Lower(name)| == |name|;
    assert Lower(name)[0] == if 65 <= name[0] <= 90 then name[0] + 32 else name[0];
    var z := |name| - 1;
    assert Lower(name)[z] == if 65 <= name[z] <= 90 then name[z] + 32 else name[z];
    assert TokenChar(name[0]) || !PySpace(name[0]);
    NotStripped(name);
  }

  predicate AllTokens(lines: seq<Str>) {
    forall i :: 0 <= i < |lines| ==> Token(Name(lines[i]))
  }

  lemma {:induction false} NamedIsHaving(lines: seq<Str>, key: Str)
    requires AllTokens(lines)
    ensures Named(lines, key) == Having(lines, key)
  {
    hide Key, FieldKey, Token;
    if lines != [] {
      NamedIsHaving(lines[..|lines| - 1], key);
      OneName(lines[|lines| - 1]);
    }
  }

  lemma {:induction false} FramingExactly(lines: seq<Str>, n: nat)
    requires forall i :: 0 <= i < |lines| ==> LineFrames(lines[i], n)
    ensures Framing(lines)
            == if PlainLengths(lines) then Some(if Named(lines, LENGTH_KEY) > 0 then n else 0) else None
  {
    hide FieldKey, Value, StrictLength;
    if lines != [] {
      var before, last := lines[..|lines| - 1], lines[|lines| - 1];
      FramingExactly(before, n);
      assert LineFrames(last, n);
      assert forall i :: 0 <= i < |before| ==> lines[i] == before[i];
      assert lines == before + [last];
    }
  }

  // ---- the lines this side adds ----

  lemma OwnHost(host: Str)
    ensures var line := HOST_PREFIX + host;
      Key(line) == HOST_KEY && FieldKey(line) == HOST_KEY && Token(Name(line)) && Fielded(line)
    ensures FieldLine(HOST_PREFIX + host) <==> Clean1(host)
    ensures NoLineEnd(HOST_PREFIX + host) <==> NoLineEnd(host)
  {
    var line := HOST_PREFIX + host;
    var name: Str := [72, 111, 115, 116];
    assert line == name + [COLON] + ([SP] + host);
    FindIn(name, COLON, [SP] + host);
    assert Name(line) == name;
    assert Trim(name, false) == name;
    assert Lower(name) == HOST_KEY;
    assert forall c :: c in line <==> c in HOST_PREFIX || c in host;
  }

  lemma DecimalTrims(n: nat)
    ensures Trim([SP] + Json.Decimal(n), true) == Json.Decimal(n)
  {
    var d := Json.Decimal(n);
    assert IsDigit(d[0]) && IsDigit(d[|d| - 1]);
    hide Json.Decimal;
    var s := [SP] + d;
    assert s[0] == SP && s[1..] == d;
    assert TrimLeft(d, true) == d && TrimLeft(s, true) == TrimLeft(s[1..], true);
  }

  lemma LengthLowers()
    ensures Lower(LENGTH_PREFIX[..14]) == LENGTH_KEY
  {
    var name := LENGTH_PREFIX[..14];
    assert name == [67, 111, 110, 116, 101, 110, 116, 45, 76, 101, 110, 103, 116, 104];
    assert forall i :: 0 <= i < 14 ==> Lower(name)[i] == LENGTH_KEY[i];
  }

  lemma OwnLengthKey(rest: Str)
    ensures var line := LENGTH_PREFIX + rest;
      && Find(line, COLON) == 14 && Key(line) == LENGTH_KEY && FieldKey(line) == LENGTH_KEY && Token(Name(line))
      && Fielded(line) && Value(line) == [SP] + rest
  {
    var line := LENGTH_PREFIX + rest;
    var name := LENGTH_PREFIX[..14];
    assert line == name + [COLON] + ([SP] + rest);
    FindIn(name, COLON, [SP] + rest);
    assert Name(line) == name && Value(line) == [SP] + rest;
    assert Trim(name, false) == name;
    LengthLowers();
  }

  lemma DigitsSend(d: Str)
    requires forall i :: 0 <= i < |d| ==> IsDigit(d[i])
    ensures Clean1(LENGTH_PREFIX + d) && Sendable(LENGTH_PREFIX + d) && Latin1(LENGTH_PREFIX + d)
  {
    assert CR !in d && LF !in d && 0 !in d;
  }

  lemma OwnLength(n: nat)
    ensures var line := LENGTH_PREFIX + Json.Decimal(n);
      && Key(line) == LENGTH_KEY && FieldKey(line) == LENGTH_KEY && FieldLine(line) && Sendable(line)
      && Token(Name(line)) && Latin1(line) && StrictLength(Value(line)) == Some(n)
  {
    hide Key, FieldKey, Value, Trim, Clean1, Sendable, Latin1, Token;
    var d := Json.Decimal(n);
    OwnLengthKey(d);
    DecimalTrims(n);
    Json.DigitsOf(d, []);
    Json.NatOfDecimal(n);
    DigitsSend(d);
    assert d + [] == d;
  }

  predicate HostFits(host: Str, headers: seq<Str>) {
    Having(headers, HOST_KEY) > 0 || Clean1(host)
  }

  lemma {:induction false} HavingIs(a: seq<Str>, b: seq<Str>, key: Str)
    ensures Having(a + b, key) == Having(a, key) + Having(b, key)
  {
    if b == [] {
      assert a + b == a;
    } else {
      HavingIs(a, b[..|b| - 1], key);
      assert (a + b)[..|a + b| - 1] == a + b[..|b| - 1];
    }
  }

  lemma HavingOne(line: Str, key: Str)
    ensures Having([line], key) == if Key(line) == key then 1 else 0
  {
    assert [line][..0] == [];
  }

  /** The Host line added for the caller, if one is, is one line. */
  predicate HostKeeps(host: Str, headers: seq<Str>) {
    Having(headers, HOST_KEY) > 0 || NoLineEnd(host)
  }

  /** What this side puts before and after the caller's lines. */
  function OwnFirst(host: Str, headers: seq<Str>): seq<Str> {
    if Having(headers, HOST_KEY) == 0 then [HOST_PREFIX + host] else []
  }

  function OwnLast(headers: seq<Str>, n: nat): seq<Str> {
    if n > 0 && Having(headers, LENGTH_KEY) == 0 then [LENGTH_PREFIX + Json.Decimal(n)] else []
  }

  /** One Host line, and a length line wherever there is a body, by the names a
      recipient goes by. */
  lemma FieldsCount(host: Str, headers: seq<Str>, n: nat)
    requires Having(headers, HOST_KEY) <= 1 && AllTokens(headers)
    ensures var lines := Fields(host, headers, n);
      AllTokens(lines) && Named(lines, HOST_KEY) == 1 && (n > 0 ==> Named(lines, LENGTH_KEY) > 0)
  {
    hide Key, FieldKey, Value, FieldLine, StrictLength, Token, Name;
    var a, c := OwnFirst(host, headers), OwnLast(headers, n);
    OwnHost(host);
    OwnLength(n);
    assert Fields(host, headers, n) == a + headers + c;
    NamedIsHaving(a + headers + c, HOST_KEY);
    NamedIsHaving(a + headers + c, LENGTH_KEY);
    HavingIs(a + headers, c, HOST_KEY);
    HavingIs(a, headers, HOST_KEY);
    HavingIs(a + headers, c, LENGTH_KEY);
    HavingIs(a, headers, LENGTH_KEY);
    HavingOne(HOST_PREFIX + host, HOST_KEY);
    HavingOne(HOST_PREFIX + host, LENGTH_KEY);
    HavingOne(LENGTH_PREFIX + Json.Decimal(n), HOST_KEY);
    HavingOne(LENGTH_PREFIX + Json.Decimal(n), LENGTH_KEY);
    assert HOST_KEY != LENGTH_KEY;
  }

  lemma FieldsEach(host: Str, headers: seq<Str>, n: nat)
    requires forall i :: 0 <= i < |headers| ==> HeaderOk(headers[i], n)
    ensures var lines := Fields(host, headers, n);
      && (forall i :: 0 <= i < |lines| ==> LineFrames(lines[i], n))
      && (HostKeeps(host, headers) ==> forall i :: 0 <= i < |lines| ==> Sendable(lines[i]))
  {
    hide Key, FieldKey, Value, Fielded, StrictLength, NoLineEnd, Clean1, Having, Token, Name;
    OwnHost(host);
    OwnLength(n);
    assert HOST_KEY != LENGTH_KEY && HOST_KEY != ENCODING_KEY && LENGTH_KEY != ENCODING_KEY;
    forall i | 0 <= i < |headers| ensures LineFrames(headers[i], n) && Sendable(headers[i]) {
      HeaderFrames(headers[i], n);
    }
  }

  lemma FieldsAllLines(host: Str, headers: seq<Str>, n: nat)
    requires forall i :: 0 <= i < |headers| ==> HeaderOk(headers[i], n)
    ensures AllFieldLines(Fields(host, headers, n)) <==> HostFits(host, headers) && AllTokens(headers)
  {
    hide Key, FieldKey, Value, Fielded, FieldLine, StrictLength, Clean1, Having, Token, Name;
    var a, c := OwnFirst(host, headers), OwnLast(headers, n);
    OwnHost(host);
    OwnLength(n);
    forall i | 0 <= i < |headers| ensures FieldLine(headers[i]) <==> Token(Name(headers[i])) {
      HeaderFrames(headers[i], n);
    }
    FieldLinesConcat(a + headers, c);
    FieldLinesConcat(a, headers);
    assert Fields(host, headers, n) == a + headers + c;
    assert AllFieldLines(c);
    assert AllFieldLines(a) <==> HostFits(host, headers) by {
      if Having(headers, HOST_KEY) == 0 {
        assert a[0] == HOST_PREFIX + host;
      }
    }
  }

  lemma FieldsPlain(host: Str, headers: seq<Str>, n: nat)
    ensures PlainLengths(Fields(host, headers, n)) <==> PlainLengths(headers)
  {
    hide Key, FieldKey, Value, FieldLine, StrictLength, Having, Token, Name;
    var a, c := OwnFirst(host, headers), OwnLast(headers, n);
    OwnHost(host);
    OwnLength(n);
    assert HOST_KEY != LENGTH_KEY;
    PlainConcat(a + headers, c);
    PlainConcat(a, headers);
    assert Fields(host, headers, n) == a + headers + c;
  }

  lemma HeaderFrames(line: Str, n: nat)
    requires HeaderOk(line, n)
    ensures LineFrames(line, n) && Sendable(line) && (FieldLine(line) <==> Token(Name(line)))
  {
    if FieldKey(line) in {LENGTH_KEY, ENCODING_KEY} {
      OneName(line);
      if FieldKey(line) == LENGTH_KEY && StrictLength(Value(line)).Some? {
        LengthsAgree(line, n);
      }
    }
  }

  lemma PlainConcat(a: seq<Str>, b: seq<Str>)
    ensures PlainLengths(a + b) <==> PlainLengths(a) && PlainLengths(b)
  {
    hide FieldKey, Value, StrictLength;
    var s := a + b;
    if PlainLengths(s) {
      forall i | 0 <= i < |a| && FieldKey(a[i]) == LENGTH_KEY ensures StrictLength(Value(a[i])).Some? {
        assert s[i] == a[i];
      }
      forall i | 0 <= i < |b| && FieldKey(b[i]) == LENGTH_KEY ensures StrictLength(Value(b[i])).Some? {
        assert s[|a| + i] == b[i];
      }
    }
  }

  // ---- the whole request ----

  lemma TwoWords(b: Str, c: Str)
    requires SP !in b && SP !in c
    ensures Split(b + [SP] + c, SP) == [b, c]
  {
    FindIn(c, SP, []);
    hide Split, Find;
    SplitNone(c, SP);
    SplitPrefix(b, SP, c);
  }

  lemma FirstWord(whole: Str, a: Str, tail: Str)
    requires SP !in a && whole == a + [SP] + tail
    ensures Split(whole, SP) == [a] + Split(tail, SP)
  {
    hide Split, Find;
    SplitPrefix(a, SP, tail);
  }

  lemma Regroup(a: Str, b: Str, c: Str)
    ensures a + [SP] + b + [SP] + c == a + [SP] + (b + [SP] + c)
  {
    Associates(a + [SP], b, [SP]);
    Associates(a + [SP], b + [SP], c);
  }

  lemma ThreeWords(a: Str, b: Str, c: Str)
    requires SP !in a && SP !in b && SP !in c
    ensures Split(a + [SP] + b + [SP] + c, SP) == [a, b, c]
  {
    hide Split;
    Regroup(a, b, c);
    FirstWord(a + [SP] + b + [SP] + c, a, b + [SP] + c);
    TwoWords(b, c);
  }

  /** The three words of the start line. */
  lemma StartSplits(verb: Str, path: Str)
    requires SP !in verb && SP !in path
    ensures Split(StartLine(verb, path), SP) == [verb, path, VERSION]
  {
    hide Split;
    ThreeWords(verb, path, VERSION);
  }

  lemma StartSends(verb: Str, path: Str)
    requires Clean1(verb) && Clean1(path)
    ensures NoLineEnd(StartLine(verb, path))
  {
  }

  /** Everything about the arguments that a recipient can hold against them and
      `request_bytes` does not. */
  predicate Readable(verb: Str, path: Str, host: Str, headers: seq<Str>) {
    HostFits(host, headers) && PlainLengths(headers) && AllTokens(headers) && Token(verb) && Visible(path)
  }

  /** What is behind the start line is read as built, or refused. */
  lemma HeadReadsBack(host: Str, headers: seq<Str>, n: nat, rest: seq<Byte>)
    requires forall i :: 0 <= i < |headers| ==> HeaderOk(headers[i], n)
    requires Having(headers, HOST_KEY) <= 1 && AllLatin1(Fields(host, headers, n)) && HostKeeps(host, headers)
    ensures var lines := Fields(host, headers, n);
      && ReadFields(Wire(lines) + rest)
         == (if HostFits(host, headers) && AllTokens(headers) then Some((lines, rest)) else None)
      && (AllTokens(headers) ==>
            Named(lines, HOST_KEY) == 1 && Framing(lines) == if PlainLengths(headers) then Some(n) else None)
  {
    hide Key, FieldKey, Value, FieldLine, StrictLength, NoLineEnd, Having, Named, Wire, Fields, ReadFields, Framing;
    hide Token, Name, PlainLengths;
    var lines := Fields(host, headers, n);
    FieldsEach(host, headers, n);
    FieldsAllLines(host, headers, n);
    FieldsPlain(host, headers, n);
    FieldsReadBack(lines, rest);
    FramingExactly(lines, n);
    if AllTokens(headers) {
      FieldsCount(host, headers, n);
    }
  }

  /** A request whose Host line keeps to itself is read as built, or refused. */
  lemma ReadAsBuilt(verb: Str, path: Str, host: Str, headers: seq<Str>, body: seq<Byte>, suffix: seq<Byte>)
    requires Built(verb, path, host, headers, body).Some? && HostKeeps(host, headers)
    ensures Parse(Built(verb, path, host, headers, body).value + suffix)
            == if Readable(verb, path, host, headers)
               then Some(Parsed(verb, path, Fields(host, headers, |body|), body, suffix)) else None
  {
    hide Key, FieldKey, Value, Fielded, FieldLine, StrictLength, NoLineEnd, Having, Named, Wire, Fields, ReadLine;
    hide ReadFields, Framing, StartLine, Token, Visible, Name, HostFits, PlainLengths, AllTokens;
    var lines := Fields(host, headers, |body|);
    var start := StartLine(verb, path);
    var all := [start] + lines;
    assert all[0] == start && all[1..] == lines;
    HeadReadsBack(host, headers, |body|, body + suffix);
    StartSends(verb, path);
    StartSplits(verb, path);
    WireStep(all, body + suffix);
    var out := Wire(all) + body;
    assert out + suffix == Wire(all) + (body + suffix);
    LineReadsBack(start, Wire(lines) + (body + suffix));
    assert (body + suffix)[..|body|] == body && (body + suffix)[|body|..] == suffix;
  }

  /** What any request read has going for it. */
  lemma ParseTells(b: seq<Byte>)
    requires Parse(b).Some?
    ensures var p := Parse(b).value;
      && Token(p.verb) && Visible(p.target) && Framing(p.fields).Some?
      && AllFieldLines(p.fields)
  {
    hide ReadLine, ReadFields, Framing, Token, Visible, FieldLine, Named;
    FieldsAreLines(ReadLine(b).value.1);
  }

  /** What a strict recipient reads off a built request, and whatever follows it on
      the connection, is that one request, whole, exactly when every given name is
      a token, the method is one, the target is visible, every length the caller
      gave is plain digits, and the host added for the caller keeps to its line.
      Where only the last fails it may read another request; where the host does
      keep to its line, it reads none. */
  lemma OneRequest(verb: Str, path: Str, host: Str, headers: seq<Str>, body: seq<Byte>, suffix: seq<Byte>)
    requires Built(verb, path, host, headers, body).Some?
    ensures var read := Parse(Built(verb, path, host, headers, body).value + suffix);
      && (read == Some(Parsed(verb, path, Fields(host, headers, |body|), body, suffix))
          <==> Readable(verb, path, host, headers))
      && (HostKeeps(host, headers) && !Readable(verb, path, host, headers) ==> read.None?)
  {
    hide Parse, Framing, FieldLine, Token, Visible, Fields, AllTokens, HostFits, Wire, PlainLengths, NoLineEnd;
    var b := Built(verb, path, host, headers, body).value + suffix;
    if HostKeeps(host, headers) {
      ReadAsBuilt(verb, path, host, headers, body, suffix);
    } else if Parse(b) == Some(Parsed(verb, path, Fields(host, headers, |body|), body, suffix)) {
      ParseTells(b);
      FieldsAllLines(host, headers, |body|);
    }
    if HostFits(host, headers) {
      FitsKeeps(host, headers);
    }
  }

  lemma FitsKeeps(host: Str, headers: seq<Str>)
    requires HostFits(host, headers)
    ensures HostKeeps(host, headers)
  {
  }

  /** A host that breaks its own line puts another line on the wire: the bytes are
      those of the request that was given that line as a header, and by
      `OneRequest` that is the request a recipient reads. */
  lemma BrokenHost(verb: Str, path: Str, host: Str, line: Str, headers: seq<Str>, body: seq<Byte>)
    requires Built(verb, path, host, [line] + headers, body).Some?
    requires Having(headers, HOST_KEY) == 0 && Key(line) !in {HOST_KEY, LENGTH_KEY}
    ensures Built(verb, path, host + EOL + line, headers, body) == Built(verb, path, host, [line] + headers, body)
  {
    hide Key, Accepted, Wire, Latin1, HeaderOk;
    var n := |body|;
    var given := [line] + headers;
    HavingIs([line], headers, HOST_KEY);
    HavingIs([line], headers, LENGTH_KEY);
    HavingOne(line, HOST_KEY);
    HavingOne(line, LENGTH_KEY);
    AcceptedRest(verb, path, line, headers, n);
    var rest := headers + OwnLast(headers, n);
    var own := HOST_PREFIX + host;
    var broken := own + EOL + line;
    assert HOST_PREFIX + (host + EOL + line) == broken;
    var start := StartLine(verb, path);
    assert [start] + Fields(host + EOL + line, headers, n) == [start, broken] + rest;
    assert [start] + Fields(host, given, n) == [start, own, line] + rest;
    SameWire(start, own, line, rest);
  }

  lemma AcceptedRest(verb: Str, path: Str, line: Str, headers: seq<Str>, n: nat)
    requires Accepted(verb, path, [line] + headers, n)
    requires Having([line] + headers, HOST_KEY) == Having(headers, HOST_KEY)
    ensures Accepted(verb, path, headers, n)
  {
    hide HeaderOk, Having, Clean1;
    var given := [line] + headers;
    forall i | 0 <= i < |headers| ensures HeaderOk(headers[i], n) {
      assert given[i + 1] == headers[i];
    }
  }

  /** Two lines, or one with a line end inside it. */
  lemma SameWire(start: Str, a: Str, b: Str, rest: seq<Str>)
    requires AllLatin1([start, a, b] + rest)
    ensures AllLatin1([start, a + EOL + b] + rest)
    ensures Wire([start, a + EOL + b] + rest) == Wire([start, a, b] + rest)
  {
    var apart, joined := [start, a, b] + rest, [start, a + EOL + b] + rest;
    assert Latin1(apart[0]) && Latin1(apart[1]) && Latin1(apart[2]);
    forall i | 0 <= i < |joined| ensures Latin1(joined[i]) {
      assert i > 1 ==> joined[i] == apart[i + 1];
    }
    assert apart[1..][1..][1..] == rest && joined[1..][1..] == rest;
    TwoSteps(joined);
    TwoSteps(apart);
    OneStep(apart[1..][1..]);
    assert a + EOL + b + EOL + Wire(rest) == a + EOL + (b + EOL + Wire(rest));
  }

  lemma OneStep(lines: seq<Str>)
    requires AllLatin1(lines) && lines != []
    ensures AllLatin1(lines[1..]) && Wire(lines) == lines[0] + EOL + Wire(lines[1..])
  {
  }

  lemma TwoSteps(lines: seq<Str>)
    requires AllLatin1(lines) && |lines| > 1
    ensures AllLatin1(lines[1..][1..])
    ensures Wire(lines) == lines[0] + EOL + (lines[1] + EOL + Wire(lines[1..][1..]))
  {
    hide Wire;
    OneStep(lines);
    OneStep(lines[1..]);
  }

  // ---- two requests no strict recipient reads as built ----

  /** A `Content-Length: +0` line. */
  const SIGNED_ZERO: Str := LENGTH_PREFIX + [43, 48]

  lemma SignedZeroTrims()
    ensures Trim([SP, 43, 48], false) == [43, 48] && Trim([SP, 43, 48], true) == [43, 48]
  {
    var d: Str := [43, 48];
    var v: Str := [SP] + d;
    assert v == [SP, 43, 48] && v[0] == SP && v[1..] == d;
    assert TrimLeft(d, false) == d && TrimLeft(d, true) == d;
    assert TrimLeft(v, false) == TrimLeft(v[1..], false) && TrimLeft(v, true) == TrimLeft(v[1..], true);
  }

  lemma SignedZeroValues()
    ensures PyInt([SP, 43, 48]) == Some(0) && StrictLength([SP, 43, 48]).None?
  {
    SignedZeroTrims();
    hide Trim;
    var d: Str := [43, 48];
    assert d[1..] == [48] && [48][..0] == [];
    assert PyDigits([48]) == Some(0);
  }

  lemma SignedZeroReads()
    ensures Key(SIGNED_ZERO) == LENGTH_KEY && FieldKey(SIGNED_ZERO) == LENGTH_KEY && HeaderOk(SIGNED_ZERO, 0)
    ensures Latin1(SIGNED_ZERO) && StrictLength(Value(SIGNED_ZERO)).None?
  {
    hide Key, FieldKey, Fielded, Value, PyInt, StrictLength;
    OwnLengthKey([43, 48]);
    assert [SP] + [43, 48] == [SP, 43, 48];
    SignedZeroValues();
    assert LENGTH_KEY != ENCODING_KEY;
    assert Clean1(SIGNED_ZERO) && Latin1(SIGNED_ZERO);
  }

  /** `Content-Length`, a vertical tab, and `: 5`. */
  const TABBED_NAME: Str := LENGTH_PREFIX[..14] + [11]
  const TABBED_FIVE: Str := TABBED_NAME + [COLON] + [SP, 53]

  lemma TabbedFiveNamed()
    ensures Name(TABBED_FIVE) == TABBED_NAME && Value(TABBED_FIVE) == [SP, 53] && Fielded(TABBED_FIVE)
    ensures Key(TABBED_FIVE) == LENGTH_KEY && FieldKey(TABBED_FIVE) !in {LENGTH_KEY, ENCODING_KEY}
    ensures !Token(Name(TABBED_FIVE))
  {
    FindIn(TABBED_NAME, COLON, [SP, 53]);
    var name := LENGTH_PREFIX[..14];
    assert TABBED_NAME[14] == 11 && TABBED_NAME[..14] == name;
    assert TrimLeft(TABBED_NAME, false) == TABBED_NAME;
    assert TrimRight(TABBED_NAME, false) == TrimRight(TABBED_NAME[..14], false) == name;
    LengthLowers();
    assert |Lower(TABBED_NAME)| == 15;
    assert !TokenChar(TABBED_NAME[14]);
  }

  lemma TabbedFiveReads()
    ensures HeaderOk(TABBED_FIVE, 5) && Latin1(TABBED_FIVE)
  {
    TabbedFiveNamed();
    hide Key, Fielded, Value;
    var v: Str := [SP, 53];
    assert v[1..] == [53] && TrimLeft([53], false) == [53] && TrimLeft(v, false) == TrimLeft(v[1..], false);
    assert Trim(v, false) == [53] && [53][..0] == [];
    assert PyDigits([53]) == Some(5);
    assert LENGTH_KEY != ENCODING_KEY;
    assert Clean1(TABBED_FIVE) && Latin1(TABBED_FIVE);
  }

  /** `POST / ` to `h` with one line of the caller's, which both names and gives
      the length of the body as this side reads it. */
  function OneLine(line: Str, body: seq<Byte>): Option<seq<Byte>> {
    Built([80, 79, 83, 84], [47], [104], [line], body)
  }

  lemma PlainStart()
    ensures Clean1([80, 79, 83, 84]) && Clean1([47])
  {
  }

  lemma OneLineBuilt(line: Str, body: seq<Byte>)
    requires HeaderOk(line, |body|) && Key(line) == LENGTH_KEY && Latin1(line)
    ensures OneLine(line, body).Some? && Fields([104], [line], |body|) == [HOST_PREFIX + [104], line]
    ensures HostKeeps([104], [line])
  {
    hide Key, Value, Fielded, PyInt, Clean1, Wire;
    var verb: Str, path: Str, host: Str, headers := [80, 79, 83, 84], [47], [104], [line];
    HavingOne(line, HOST_KEY);
    HavingOne(line, LENGTH_KEY);
    assert headers[0] == line && HOST_KEY != LENGTH_KEY;
    PlainStart();
    assert Latin1(StartLine(verb, path)) && Latin1(HOST_PREFIX + host);
    assert Fields(host, headers, |body|) == [HOST_PREFIX + host, line];
  }

  /** Names are stripped by Python's rules before they are compared, so a name no
      recipient takes for Content-Length keeps this side from giving a length of
      its own: no line on the wire names one, the lines frame an empty body, and
      five bytes follow. */
  lemma UnnamedLength(body: seq<Byte>)
    requires |body| == 5
    ensures OneLine(TABBED_FIVE, body).Some? && Parse(OneLine(TABBED_FIVE, body).value) == None
    ensures var lines := Fields([104], [TABBED_FIVE], 5);
      OneLine(TABBED_FIVE, body).value[|OneLine(TABBED_FIVE, body).value| - 5..] == body
      && Named(lines, LENGTH_KEY) == 0 && Framing(lines) == Some(0)
  {
    TabbedFiveNamed();
    TabbedFiveReads();
    hide Parse, Key, FieldKey, Value, Fielded, PyInt, StrictLength, TABBED_FIVE, HeaderOk, Token, Wire, Clean1;
    OneLineBuilt(TABBED_FIVE, body);
    var headers := [TABBED_FIVE];
    assert headers[0] == TABBED_FIVE;
    OneRequest([80, 79, 83, 84], [47], [104], headers, body, []);
    var out := OneLine(TABBED_FIVE, body).value;
    assert out + [] == out;
    FramesNothing(TABBED_FIVE);
  }

  lemma FramesNothing(line: Str)
    requires FieldKey(line) !in {LENGTH_KEY, ENCODING_KEY}
    ensures var lines := [HOST_PREFIX + [104], line]; Named(lines, LENGTH_KEY) == 0 && Framing(lines) == Some(0)
  {
    OwnHost([104]);
    hide FieldKey, StrictLength;
    var own := HOST_PREFIX + [104];
    var lines := [own, line];
    var none: seq<Str> := [];
    assert lines[..1] == [own] && [own][..0] == none;
    assert HOST_KEY != LENGTH_KEY && HOST_KEY != ENCODING_KEY;
    assert Named([own], LENGTH_KEY) == 0;
    FramingExactly(lines, 0);
  }

  /** A digit, and before it digits, with no underscore but between two of them. */
  predicate Underscored(s: Str) {
    && s != [] && IsDigit(s[0]) && IsDigit(s[|s| - 1])
    && (forall i :: 0 <= i < |s| ==> IsDigit(s[i]) || s[i] == 95)
    && (forall i :: 0 <= i < |s| - 1 ==> IsDigit(s[i]) || IsDigit(s[i + 1]))
  }

  /** What goes before the last digit: more of them, or an underscore and more. */
  function Before(s: Str): Str
    requires |s| > 1
  {
    if s[|s| - 2] == 95 then s[..|s| - 2] else s[..|s| - 1]
  }

  lemma UnderscoredOnward(s: Str)
    requires |s| > 1 && IsDigit(s[|s| - 1])
    ensures Underscored(s) <==> Underscored(Before(s))
  {
    var m, n := Before(s), |s| - 1;
    assert forall i :: 0 <= i < |m| ==> m[i] == s[i];
    if Underscored(s) {
      assert IsDigit(s[n - 1]) || n > 1;
      if n > 1 {
        assert IsDigit(s[n - 2]) || IsDigit(s[n - 1]);
      }
    }
    if Underscored(m) {
      assert IsDigit(m[|m| - 1]);
      forall i | 0 <= i < |s| ensures IsDigit(s[i]) || s[i] == 95 {
        assert i < |m| ==> IsDigit(m[i]) || m[i] == 95;
      }
      forall i | 0 <= i < n ensures IsDigit(s[i]) || IsDigit(s[i + 1]) {
        assert i < |m| - 1 ==> IsDigit(m[i]) || IsDigit(m[i + 1]);
      }
    }
  }

  lemma {:induction false} DigitsUnderscored(s: Str)
    ensures PyDigits(s).Some? <==> Underscored(s)
    decreases |s|
  {
    if |s| > 1 && IsDigit(s[|s| - 1]) {
      var before := s[..|s| - 1];
      assert before[|before| - 1] == s[|s| - 2];
      assert before[..|before| - 1] == s[..|s| - 2];
      UnderscoredOnward(s);
      DigitsUnderscored(Before(s));
    }
  }

  /** What `int()` takes for a number: between blanks, an optional sign and digits,
      with single underscores between; below zero only behind a minus. */
  lemma IntsMean(value: Str)
    ensures var s := Trim(value, false);
      && (PyInt(value).Some? <==> Underscored(if s != [] && s[0] in {43, 45} then s[1..] else s))
      && (PyInt(value).Some? && s[0] == 45 ==> PyInt(value) == Some(-(PyDigits(s[1..]).value as int)))
      && (PyInt(value).Some? && s[0] != 45 ==> PyInt(value).value >= 0)
  {
    var s := Trim(value, false);
    hide Trim, PyDigits;
    DigitsUnderscored(s);
    if s != [] {
      DigitsUnderscored(s[1..]);
    }
  }

  /** `int()` lets through what no recipient need read as a length. */
  lemma SignedLength()
    ensures OneLine(SIGNED_ZERO, []).Some? && Parse(OneLine(SIGNED_ZERO, []).value) == None
  {
    SignedZeroReads();
    hide Parse, Key, FieldKey, Value, Fielded, PyInt, StrictLength, Built;
    OneLineBuilt(SIGNED_ZERO, []);
    var headers := [SIGNED_ZERO];
    assert headers[0] == SIGNED_ZERO;
    OneRequest([80, 79, 83, 84], [47], [104], headers, [], []);
    var out := OneLine(SIGNED_ZERO, []).value;
    assert out + [] == out;
  }
}
