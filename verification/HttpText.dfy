/** `hx.http_text.split_head_body` and `hx.insertion._request_target`, over requests
    this side built. */
module HttpText {
  import opened Options
  import opened Utf8
  import opened Chars
  import opened Text
  import opened Request
  import opened RequestParser

  const TWO_EOLS: seq<Byte> := [CR, LF, CR, LF]
  const TWO_FEEDS: seq<Byte> := [LF, LF]

  /** `find`: where `p` first stands in `s`. */
  function FindSub(s: seq<Byte>, p: seq<Byte>): (r: Option<nat>)
    requires p != []
    ensures r.Some? ==> r.value + |p| <= |s| && s[r.value..r.value + |p|] == p
  {
    if p <= s then Some(0)
    else if s == [] then None
    else
      var r := FindSub(s[1..], p);
      if r.None? then None else Some(1 + r.value)
  }

  /** Whichever terminator comes first is the real one. */
  function SplitHeadBody(raw: seq<Byte>): (seq<Byte>, seq<Byte>) {
    var crlf, lf := FindSub(raw, TWO_EOLS), FindSub(raw, TWO_FEEDS);
    if crlf.None? && lf.None? then (raw, [])
    else if crlf.Some? && (lf.None? || crlf.value <= lf.value) then (raw[..crlf.value], raw[crlf.value + 4..])
    else (raw[..lf.value], raw[lf.value + 2..])
  }

  /** The second word of the first line. */
  function RequestTarget(head: seq<Byte>): Option<Str> {
    var first := head[..Find(head, LF)];
    var line := if first != [] && first[|first| - 1] == CR then first[..|first| - 1] else first;
    var words := Split<Code>(line, SP);
    if |words| < 2 then None else Some(words[1])
  }

  /** The lines of a head, ended but for the last, and what follows that one. */
  function HeadThen(lines: seq<Str>, tail: seq<Byte>): seq<Byte>
    requires AllLatin1(lines) && lines != []
  {
    assert Latin1(lines[0]) && AllLatin1(lines[1..]);
    if |lines| == 1 then lines[0] + tail else lines[0] + (EOL + HeadThen(lines[1..], tail))
  }

  lemma {:induction false} HeadApart(lines: seq<Str>, tail: seq<Byte>)
    requires AllLatin1(lines) && lines != []
    ensures HeadThen(lines, tail) == HeadThen(lines, []) + tail
  {
    assert Latin1(lines[0]) && AllLatin1(lines[1..]);
    if |lines| == 1 {
      assert lines[0] + [] == lines[0];
    } else {
      HeadApart(lines[1..], tail);
      Associates(EOL, HeadThen(lines[1..], []), tail);
      Associates(lines[0], EOL + HeadThen(lines[1..], []), tail);
    }
  }

  lemma {:induction false} WireIsHead(lines: seq<Str>, body: seq<Byte>)
    requires AllLatin1(lines) && lines != []
    ensures Wire(lines) + body == HeadThen(lines, TWO_EOLS + body)
  {
    WireStep(lines, body);
    if |lines| == 1 {
      assert Wire(lines[1..]) == EOL;
      Associates(EOL, EOL, body);
      assert EOL + EOL == TWO_EOLS;
      Associates(lines[0], EOL, EOL + body);
    } else {
      WireIsHead(lines[1..], body);
      Associates(lines[0], EOL, HeadThen(lines[1..], TWO_EOLS + body));
    }
  }

  function Past(n: nat, r: Option<nat>): Option<nat> {
    if r.None? then None else Some(n + r.value)
  }

  lemma FindPastOne(c: Byte, rest: seq<Byte>, p: seq<Byte>)
    requires p != [] && c != p[0]
    ensures FindSub([c] + rest, p) == Past(1, FindSub(rest, p))
  {
    var s := [c] + rest;
    assert s[1..] == rest && s[0] == c;
    assert !(p <= s);
  }

  lemma FirstApart(line: seq<Byte>, rest: seq<Byte>)
    requires line != []
    ensures line + rest == [line[0]] + (line[1..] + rest)
    ensures NoLineEnd(line) ==> NoLineEnd(line[1..]) && !LineEnd(line[0])
  {
  }

  lemma {:induction false} FindPast(line: seq<Byte>, rest: seq<Byte>, p: seq<Byte>)
    requires NoLineEnd(line) && p != [] && LineEnd(p[0])
    ensures FindSub(line + rest, p) == Past(|line|, FindSub(rest, p))
  {
    hide FindSub, NoLineEnd;
    if line == [] {
      assert line + rest == rest;
    } else {
      FirstApart(line, rest);
      FindPast(line[1..], rest, p);
      FindPastOne(line[0], line[1..] + rest, p);
    }
  }

  /** One line end, and not the blank line, before a line with something in it. */
  lemma FindPastEol(rest: seq<Byte>, p: seq<Byte>)
    requires rest != [] && !LineEnd(rest[0]) && (p == TWO_EOLS || p == TWO_FEEDS)
    ensures FindSub(EOL + rest, p) == Past(2, FindSub(rest, p))
  {
    var s := EOL + rest;
    assert s[0] == CR && s[1] == LF && s[2] == rest[0];
    assert s[1..][0] == LF && s[1..][1] == rest[0] && s[1..][1..] == rest;
    assert !(p <= s) && !(p <= s[1..]);
  }

  predicate HeadLine(line: Str) {
    NoLineEnd(line) && line != []
  }

  lemma HeadStarts(lines: seq<Str>, tail: seq<Byte>)
    requires AllLatin1(lines) && lines != [] && HeadLine(lines[0])
    ensures HeadThen(lines, tail) != [] && !LineEnd(HeadThen(lines, tail)[0])
  {
    assert HeadThen(lines, tail)[0] == lines[0][0];
  }

  lemma HeadStep(lines: seq<Str>, tail: seq<Byte>)
    requires AllLatin1(lines) && lines != []
    ensures Latin1(lines[0]) && AllLatin1(lines[1..])
    ensures |lines| == 1 ==> HeadThen(lines, tail) == lines[0] + tail
    ensures |lines| > 1 ==> HeadThen(lines, tail) == lines[0] + (EOL + HeadThen(lines[1..], tail))
  {
  }

  /** In `raw` the blank line is found at `n`, and a bare pair of line feeds not
      before it. */
  predicate EndsAt(raw: seq<Byte>, n: nat) {
    FindSub(raw, TWO_EOLS) == Some(n) && (FindSub(raw, TWO_FEEDS).Some? ==> FindSub(raw, TWO_FEEDS).value >= n)
  }

  lemma EndsAfterLine(line: seq<Byte>, body: seq<Byte>)
    requires NoLineEnd(line)
    ensures EndsAt(line + (TWO_EOLS + body), |line|)
  {
    var tail := TWO_EOLS + body;
    assert TWO_EOLS <= tail;
    assert FindSub(tail, TWO_EOLS) == Some(0);
    hide FindSub, NoLineEnd;
    FindPast(line, tail, TWO_EOLS);
    FindPast(line, tail, TWO_FEEDS);
  }

  lemma EndsPastLine(line: seq<Byte>, next: seq<Byte>, n: nat)
    requires NoLineEnd(line) && next != [] && !LineEnd(next[0]) && EndsAt(next, n)
    ensures EndsAt(line + (EOL + next), |line| + 2 + n)
  {
    hide FindSub, NoLineEnd;
    FindPastEol(next, TWO_EOLS);
    FindPastEol(next, TWO_FEEDS);
    FindPast(line, EOL + next, TWO_EOLS);
    FindPast(line, EOL + next, TWO_FEEDS);
  }

  lemma {:induction false} HeadEnds(lines: seq<Str>, body: seq<Byte>)
    requires AllLatin1(lines) && lines != [] && forall i :: 0 <= i < |lines| ==> HeadLine(lines[i])
    ensures EndsAt(HeadThen(lines, TWO_EOLS + body), |HeadThen(lines, [])|)
  {
    hide HeadThen, EndsAt, NoLineEnd, Latin1;
    HeadStep(lines, TWO_EOLS + body);
    HeadStep(lines, []);
    assert HeadLine(lines[0]);
    if |lines| == 1 {
      EndsAfterLine(lines[0], body);
    } else {
      HeadEnds(lines[1..], body);
      HeadStarts(lines[1..], TWO_EOLS + body);
      EndsPastLine(lines[0], HeadThen(lines[1..], TWO_EOLS + body), |HeadThen(lines[1..], [])|);
    }
  }

  lemma FieldNotEmpty(line: Str)
    requires Sendable(line)
    ensures HeadLine(line)
  {
  }

  lemma StartNotEmpty(verb: Str, path: Str)
    ensures StartLine(verb, path) != []
  {
  }

  lemma SomeField(host: Str, headers: seq<Str>, n: nat)
    ensures Fields(host, headers, n) != []
  {
    hide Key;
  }

  lemma TargetOf(start: seq<Byte>, more: seq<Byte>, words: seq<Str>)
    requires NoLineEnd(start) && Split<Code>(start, SP) == words && |words| >= 2
    ensures RequestTarget(start + (EOL + more)) == Some(words[1])
  {
    hide Split, Find;
    FirstLine(start, more);
    hide NoLineEnd;
    assert (start + [CR])[..|start|] == start;
  }

  lemma FirstLine(start: seq<Byte>, more: seq<Byte>)
    requires NoLineEnd(start)
    ensures var head := start + (EOL + more);
      Find(head, LF) == |start| + 1 && head[..|start| + 1] == start + [CR]
  {
    var head := start + (EOL + more);
    assert head == (start + [CR]) + [LF] + more;
    FindIn<Byte>(start + [CR], LF, more);
  }

  /** A built request gives back its own body and its own target. */
  lemma RecoversBodyAndTarget(verb: Str, path: Str, host: Str, headers: seq<Str>, body: seq<Byte>)
    requires Built(verb, path, host, headers, body).Some? && HostKeeps(host, headers)
    ensures var (head, rest) := SplitHeadBody(Built(verb, path, host, headers, body).value);
      rest == body && RequestTarget(head) == Some(path)
  {
    var start, fields := StartLine(verb, path), Fields(host, headers, |body|);
    var lines := [start] + fields;
    StartSends(verb, path);
    StartNotEmpty(verb, path);
    FieldsEach(host, headers, |body|);
    hide Fields, StartLine, Wire, FindSub, Sendable, NoLineEnd, Having, RequestTarget;
    SomeField(host, headers, |body|);
    forall i | 0 <= i < |lines| ensures HeadLine(lines[i]) {
      if i > 0 { FieldNotEmpty(fields[i - 1]); }
    }
    WireIsHead(lines, body);
    HeadEnds(lines, body);
    HeadApart(lines, TWO_EOLS + body);
    var head := HeadThen(lines, []);
    var raw := Wire(lines) + body;
    assert raw[..|head|] == head && raw[|head| + 4..] == body;
    assert lines[0] == start && lines[1..] == fields;
    StartSplits(verb, path);
    TargetOf(start, HeadThen(fields, []), [verb, path, VERSION]);
  }
}
