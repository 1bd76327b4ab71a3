/** One round of percent-decoding as `urllib.parse.unquote(..., errors="strict")`
    does it: each run of ASCII is unescaped to bytes and read as UTF-8 by itself. */
module Percent {
  import opened Options
  import opened Utf8
  import opened Chars

  const SIGN: Code := 37

  /** `s` opens with a valid escape. */
  predicate EscapeAt(s: seq<Code>) {
    |s| >= 3 && s[0] == SIGN && HexValue(s[1]).Some? && HexValue(s[2]).Some?
  }

  function EscapedByte(s: seq<Code>): Byte
    requires EscapeAt(s)
  {
    HexValue(s[1]).value * 16 + HexValue(s[2]).value
  }

  function HexOut(n: int): (c: Code)
    requires 0 <= n < 16
    ensures HexValue(c) == Some(n) && c < 0x80
  {
    if n < 10 then 48 + n else 55 + n
  }

  /** A byte as one escape. */
  function Escape(b: Byte): (s: seq<Code>)
    ensures EscapeAt(s) && EscapedByte(s) == b && |s| == 3
  {
    [SIGN, HexOut(b / 16), HexOut(b % 16)]
  }

  predicate IsAscii(s: seq<Code>) {
    forall i :: 0 <= i < |s| ==> s[i] < 0x80
  }

  /** `unquote_to_bytes`: a `%` that opens no escape is left as it is. */
  function Unescape(s: seq<Code>): (b: seq<Byte>)
    requires IsAscii(s)
    ensures |b| <= |s|
    decreases |s|
  {
    if s == [] then []
    else if EscapeAt(s) then [EscapedByte(s)] + Unescape(s[3..])
    else [s[0]] + Unescape(s[1..])
  }

  /** A text with some of its characters escaped. */
  function Spelling(d: seq<Code>, escaped: seq<bool>): seq<Code>
    requires IsAscii(d) && |escaped| == |d|
  {
    if d == [] then []
    else (if escaped[0] then Escape(d[0]) else [d[0]]) + Spelling(d[1..], escaped[1..])
  }

  predicate HasEscape(s: seq<Code>) {
    exists i :: 0 <= i < |s| && EscapeAt(s[i..])
  }

  function AsciiRun(s: seq<Code>): (n: nat)
    ensures n <= |s| && IsAscii(s[..n]) && (n < |s| ==> s[n] >= 0x80)
  {
    if s == [] || s[0] >= 0x80 then 0
    else
      var n := 1 + AsciiRun(s[1..]);
      assert s[..n] == [s[0]] + s[1..][..n - 1];
      n
  }

  /** None where some run's bytes are not UTF-8. */
  function DecodeParts(s: seq<Code>): Option<seq<Code>>
    decreases |s|
  {
    if s == [] then Some([])
    else
      var n := AsciiRun(s);
      if n == 0 then
        var rest := DecodeParts(s[1..]);
        if rest.None? then None else Some([s[0]] + rest.value)
      else
        var run, rest := Decode(Unescape(s[..n])), DecodeParts(s[n..]);
        if run.None? || rest.None? then None else Some(run.value + rest.value)
  }

  function DecodeOnce(s: seq<Code>): seq<Code> {
    var r := DecodeParts(s);
    if r.None? then s else r.value
  }

  // ---- what one round does to the length ----

  lemma {:induction false} DecodeShrinks(b: seq<Byte>)
    requires Decode(b).Some?
    ensures |Decode(b).value| <= |b|
    decreases |b|
  {
    if b != [] {
      DecodeShrinks(b[DecodeOne(b).value.1..]);
    }
  }

  lemma {:induction false} DecodeAscii(b: seq<Byte>)
    requires forall i :: 0 <= i < |b| ==> b[i] < 0x80
    ensures Decode(b) == Some(b)
  {
    if b != [] {
      DecodeAscii(b[1..]);
      assert [b[0]] + b[1..] == b;
    }
  }

  lemma EscapeLater(s: seq<Code>, n: nat)
    requires n <= |s|
    ensures HasEscape(s[n..]) ==> HasEscape(s)
    ensures HasEscape(s) ==> (exists i :: 0 <= i < n && EscapeAt(s[i..])) || HasEscape(s[n..])
  {
    if HasEscape(s[n..]) {
      var i :| 0 <= i < |s[n..]| && EscapeAt(s[n..][i..]);
      assert s[n..][i..] == s[n + i..];
    }
    if HasEscape(s) {
      var i :| 0 <= i < |s| && EscapeAt(s[i..]);
      if i >= n {
        assert s[n..][i - n..] == s[i..];
      }
    }
  }

  lemma EscapeHere(s: seq<Code>)
    requires s != []
    ensures HasEscape(s) <==> EscapeAt(s) || HasEscape(s[1..])
  {
    EscapeLater(s, 1);
    assert s[0..] == s;
  }

  lemma UnescapeStep(s: seq<Code>)
    requires IsAscii(s) && s != []
    ensures EscapeAt(s) ==> |Unescape(s)| <= |s| - 2
    ensures !EscapeAt(s) ==> Unescape(s) == [s[0]] + Unescape(s[1..])
  {
  }

  lemma {:induction false} UnescapeLength(s: seq<Code>)
    requires IsAscii(s)
    ensures HasEscape(s) ==> |Unescape(s)| <= |s| - 2
    ensures !HasEscape(s) ==> Unescape(s) == s
    decreases |s|
  {
    if s != [] {
      EscapeHere(s);
      UnescapeStep(s);
      assert IsAscii(s[1..]);
      hide HasEscape, EscapeAt, Unescape, IsAscii;
      UnescapeLength(s[1..]);
      assert [s[0]] + s[1..] == s;
    }
  }

  /** An escape that starts in a run of ASCII ends in it. */
  lemma EscapeWithin(s: seq<Code>, i: nat)
    requires i < AsciiRun(s)
    ensures EscapeAt(s[..AsciiRun(s)][i..]) <==> EscapeAt(s[i..])
  {
    var n := AsciiRun(s);
    var a, b := s[..n][i..], s[i..];
    assert forall j :: 0 <= j < |a| ==> a[j] == b[j];
    if EscapeAt(b) {
      assert s[i + 1] < 0x80 && s[i + 2] < 0x80;
      assert n != i + 1 && n != i + 2;
    }
  }

  lemma EscapeInRun(s: seq<Code>)
    requires s != []
    ensures var n := AsciiRun(s);
      HasEscape(s) <==> if n == 0 then HasEscape(s[1..]) else HasEscape(s[..n]) || HasEscape(s[n..])
  {
    var n := AsciiRun(s);
    if n == 0 {
      EscapeHere(s);
    } else {
      EscapeLater(s, n);
      hide EscapeAt, AsciiRun;
      if HasEscape(s[..n]) {
        var i :| 0 <= i < |s[..n]| && EscapeAt(s[..n][i..]);
        EscapeWithin(s, i);
        assert 0 <= i < |s| && EscapeAt(s[i..]);
      }
      if exists i :: 0 <= i < n && EscapeAt(s[i..]) {
        var i :| 0 <= i < n && EscapeAt(s[i..]);
        EscapeWithin(s, i);
        assert 0 <= i < |s[..n]| && EscapeAt(s[..n][i..]);
      }
    }
  }

  lemma SameBehindChar(s: seq<Code>)
    requires s != [] && AsciiRun(s) == 0 && DecodeParts(s[1..]) == Some(s[1..])
    ensures DecodeParts(s) == Some(s)
  {
    PartsStep(s);
    hide DecodeParts, AsciiRun;
    assert [s[0]] + s[1..] == s;
  }

  lemma SameBehindRun(s: seq<Code>)
    requires s != [] && AsciiRun(s) > 0
    requires var n := AsciiRun(s);
      Decode(Unescape(s[..n])) == Some(s[..n]) && DecodeParts(s[n..]) == Some(s[n..])
    ensures DecodeParts(s) == Some(s)
  {
    hide DecodeParts, AsciiRun, Decode, Unescape, IsAscii;
    var n := AsciiRun(s);
    PartsStep(s);
    assert s[..n] + s[n..] == s;
  }

  lemma {:induction false} PartsSame(s: seq<Code>)
    requires !HasEscape(s)
    ensures DecodeParts(s) == Some(s)
    decreases |s|
  {
    if s != [] {
      EscapeInRun(s);
      var n := AsciiRun(s);
      hide HasEscape, Decode, Unescape, DecodeParts, AsciiRun;
      if n == 0 {
        PartsSame(s[1..]);
        SameBehindChar(s);
      } else {
        PartsSame(s[n..]);
        RunLength(s[..n]);
        SameBehindRun(s);
      }
    }
  }

  lemma {:induction false} PartsShrink(s: seq<Code>)
    requires DecodeParts(s).Some?
    ensures |DecodeParts(s).value| <= if HasEscape(s) then |s| - 2 else |s|
    decreases |s|
  {
    if s == [] {
      assert !HasEscape(s);
    } else {
      EscapeInRun(s);
      PartsStep(s);
      var n := AsciiRun(s);
      hide HasEscape, IsAscii, Decode, Unescape, DecodeParts, AsciiRun;
      if n == 0 {
        PartsShrink(s[1..]);
      } else {
        PartsShrink(s[n..]);
        RunLength(s[..n]);
      }
    }
  }

  lemma PartsStep(s: seq<Code>)
    requires s != []
    ensures var n := AsciiRun(s);
      if n == 0 then
        DecodeParts(s) == match DecodeParts(s[1..]) { case None => None case Some(r) => Some([s[0]] + r) }
      else
        DecodeParts(s) == match (Decode(Unescape(s[..n])), DecodeParts(s[n..])) {
          case (Some(a), Some(b)) => Some(a + b) case _ => None }
  {
    hide Decode, Unescape;
  }

  lemma RunLength(run: seq<Code>)
    requires IsAscii(run)
    ensures !HasEscape(run) ==> Decode(Unescape(run)) == Some(run)
    ensures Decode(Unescape(run)).Some? ==>
      |Decode(Unescape(run)).value| <= if HasEscape(run) then |run| - 2 else |run|
  {
    UnescapeLength(run);
    if !HasEscape(run) {
      DecodeAscii(run);
    }
    if Decode(Unescape(run)).Some? {
      DecodeShrinks(Unescape(run));
    }
  }

  /** A round changes nothing where there is no escape it can read, and where it
      changes anything it takes at least two characters away. */
  lemma RoundShrinks(s: seq<Code>)
    ensures DecodeOnce(s) == s || |DecodeOnce(s)| <= |s| - 2
    ensures DecodeOnce(s) == s <==> !HasEscape(s) || DecodeParts(s).None?
  {
    if !HasEscape(s) {
      PartsSame(s);
    }
    if DecodeParts(s).Some? {
      PartsShrink(s);
    }
  }

  lemma EscapeFirst(b: Byte, rest: seq<Code>)
    requires b < 0x80 && IsAscii(rest)
    ensures IsAscii(Escape(b) + rest) && Unescape(Escape(b) + rest) == [b] + Unescape(rest)
  {
    var s := Escape(b) + rest;
    assert s[0] == SIGN && s[1] == HexOut(b / 16) && s[2] == HexOut(b % 16) && s[3..] == rest;
  }

  lemma PlainFirst(c: Code, rest: seq<Code>)
    requires c != SIGN && c < 0x80 && IsAscii(rest)
    ensures IsAscii([c] + rest) && Unescape([c] + rest) == [c] + Unescape(rest)
  {
    assert ([c] + rest)[1..] == rest;
  }

  /** However a text with no `%` in it is spelt, it is read back. */
  lemma {:induction false} SpellingUnescapes(d: seq<Code>, escaped: seq<bool>)
    requires IsAscii(d) && SIGN !in d && |escaped| == |d|
    ensures IsAscii(Spelling(d, escaped)) && Unescape(Spelling(d, escaped)) == d
  {
    if d != [] {
      SpellingUnescapes(d[1..], escaped[1..]);
      hide Unescape, Escape;
      var rest := Spelling(d[1..], escaped[1..]);
      if escaped[0] {
        EscapeFirst(d[0], rest);
      } else {
        PlainFirst(d[0], rest);
      }
      assert d == [d[0]] + d[1..];
    }
  }
}
