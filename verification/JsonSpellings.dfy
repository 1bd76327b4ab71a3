/** The ways a peer may write a flat JSON object: space between the tokens, any
    character escaped or not (RFC 8259 sections 2 and 7). The reader reads them all. */
module JsonSpellings {
  import opened Options
  import opened Utf8
  import opened Json

  predicate Blank(s: seq<Code>) {
    forall c <- s :: c in {32, 9, 10, 13}
  }

  /** `\u` and four hexadecimal digits. */
  predicate EscapedAs(t: seq<Code>, n: int) {
    |t| == 6 && t[0] == BACKSLASH && t[1] == Ch('u') && Hex4(t[2..]) == Some(n)
  }

  /** One way of writing a code point in a string: itself, a short escape, one `\u`
      escape, or two for one past U+FFFF. */
  predicate Speaks(t: seq<Code>, c: Code) {
    || (t == [c] && c >= 32 && c != QUOTE && c != BACKSLASH)
    || (|t| == 2 && t[0] == BACKSLASH && (t[1], c) in {(34, 34), (92, 92), (47, 47), (98, 8), (116, 9), (110, 10),
                                                       (102, 12), (114, 13)})
    || EscapedAs(t, c)
    || (|t| == 12 && c >= 0x1_0000 && EscapedAs(t[..6], 0xD800 + (c - 0x1_0000) / 1024)
        && EscapedAs(t[6..], 0xDC00 + (c - 0x1_0000) % 1024))
  }

  ghost predicate Spells(t: seq<Code>, s: seq<Code>)
    decreases |s|
  {
    if s == [] then t == []
    else exists n :: 0 < n <= |t| && Speaks(t[..n], s[0]) && Spells(t[n..], s[1..])
  }

  ghost predicate SpellsValue(t: seq<Code>, v: Value) {
    match v
    case Str(s) => |t| >= 2 && t == [QUOTE] + t[1..|t| - 1] + [QUOTE] && Clean(s) && Spells(t[1..|t| - 1], s)
    case _ => t == PrintValue(v)
  }

  /** A member as it is written, with the space around its tokens. */
  datatype Part = Part(before: seq<Code>, key: seq<Code>, mid: seq<Code>, behind: seq<Code>, value: seq<Code>,
                       after: seq<Code>)

  ghost predicate PartIs(p: Part, m: (seq<Code>, Value)) {
    && Blank(p.before) && Blank(p.mid) && Blank(p.behind) && Blank(p.after)
    && Clean(m.0) && Spells(p.key, m.0) && SpellsValue(p.value, m.1)
  }

  ghost predicate PartsAre(ps: seq<Part>, h: Header) {
    |ps| == |h| && forall i :: 0 <= i < |h| ==> PartIs(ps[i], h[i])
  }

  function PartText(p: Part): seq<Code> {
    p.before + ([QUOTE] + (p.key + [QUOTE] + (p.mid + ([58] + (p.behind + (p.value + p.after))))))
  }

  function PartsText(ps: seq<Part>): seq<Code>
    requires ps != []
  {
    if |ps| == 1 then PartText(ps[0]) else PartText(ps[0]) + [44] + PartsText(ps[1..])
  }

  /** Written one by one: a key written twice has its last value, where it first stood. */
  function PutAll(was: Header, h: Header): Header
    decreases |h|
  {
    if h == [] then was else PutAll(Put(was, h[0].0, h[0].1), h[1..])
  }

  lemma {:induction false} SkipsBlank(ws: seq<Code>, rest: seq<Code>)
    requires Blank(ws)
    ensures SkipSpace(ws + rest) == SkipSpace(rest)
  {
    if ws == [] {
      assert ws + rest == rest;
    } else {
      assert ws[0] in ws && (ws + rest)[1..] == ws[1..] + rest;
      assert forall c :: c in ws[1..] ==> c in ws;
      SkipsBlank(ws[1..], rest);
    }
  }

  lemma ReadsPair(t: seq<Code>, c: Code, rest: seq<Code>)
    requires |t| == 12 && c >= 0x1_0000 && EscapedAs(t[..6], 0xD800 + (c - 0x1_0000) / 1024)
    requires EscapedAs(t[6..], 0xDC00 + (c - 0x1_0000) % 1024)
    ensures ReadUnicode((t + rest)[2..]) == Some((c, rest))
  {
    var s := (t + rest)[2..];
    assert s[0] == t[..6][2..][0] && s[1] == t[..6][2..][1] && s[2] == t[..6][2..][2] && s[3] == t[..6][2..][3];
    var low := s[4..];
    assert low[0] == t[6..][0] && low[1] == t[6..][1];
    var digits := low[2..];
    assert digits[0] == t[6..][2..][0] && digits[1] == t[6..][2..][1];
    assert digits[2] == t[6..][2..][2] && digits[3] == t[6..][2..][3];
    assert low[6..] == rest;
  }

  lemma ReadSpoken(t: seq<Code>, c: Code, rest: seq<Code>)
    requires Speaks(t, c) && !Surrogate(c)
    ensures t != [] && t[0] != QUOTE && ReadChar(t + rest) == Some((c, rest))
  {
    var s := t + rest;
    assert s[0] == t[0];
    if |t| == 12 {
      ReadsPair(t, c, rest);
      assert s[1] == t[..6][1] && s[1..][1..] == s[2..];
    } else if |t| == 6 {
      var u := s[1..][1..];
      assert s[1] == t[1] && u[..4] == t[2..] && u[4..] == rest;
      assert u[0] == t[2..][0] && u[1] == t[2..][1] && u[2] == t[2..][2] && u[3] == t[2..][3];
    } else if |t| == 2 {
      assert s[1] == t[1] && s[1..][1..] == rest;
    } else {
      assert s[1..] == rest;
    }
  }

  lemma ReadStrOnward(head: seq<Code>, c: Code, tail: seq<Code>, s: seq<Code>, rest: seq<Code>)
    requires head != [] && head[0] != QUOTE && ReadChar(head + tail) == Some((c, tail))
    requires ReadStr(tail) == Some((s, rest))
    ensures ReadStr(head + tail) == Some(([c] + s, rest))
  {
    hide ReadChar;
    assert (head + tail)[0] == head[0];
  }

  lemma ReadSpelledOnward(t: seq<Code>, n: nat, s: seq<Code>, rest: seq<Code>)
    requires s != [] && 0 < n <= |t| && Speaks(t[..n], s[0]) && !Surrogate(s[0])
    requires ReadStr(t[n..] + ([QUOTE] + rest)) == Some((s[1..], rest))
    ensures ReadStr(t + ([QUOTE] + rest)) == Some((s, rest))
  {
    hide Speaks, ReadChar, ReadStr;
    var tail := t[n..] + ([QUOTE] + rest);
    assert t + ([QUOTE] + rest) == t[..n] + tail;
    ReadSpoken(t[..n], s[0], tail);
    ReadStrOnward(t[..n], s[0], tail, s[1..], rest);
    assert [s[0]] + s[1..] == s;
  }

  /** A string is read as what it spells, however it spells it. */
  lemma {:induction false} ReadSpelled(t: seq<Code>, s: seq<Code>, rest: seq<Code>)
    requires Spells(t, s) && Clean(s)
    ensures ReadStr(t + ([QUOTE] + rest)) == Some((s, rest))
    decreases |s|
  {
    hide Speaks, ReadChar;
    if s == [] {
      assert t + ([QUOTE] + rest) == [QUOTE] + rest && ([QUOTE] + rest)[1..] == rest;
    } else {
      var n :| 0 < n <= |t| && Speaks(t[..n], s[0]) && Spells(t[n..], s[1..]);
      ReadSpelled(t[n..], s[1..], rest);
      ReadSpelledOnward(t, n, s, rest);
    }
  }

  lemma ReadSpelledValue(t: seq<Code>, v: Value, rest: seq<Code>)
    requires SpellsValue(t, v) && rest != [] && rest[0] in {32, 9, 10, 13, 44, 125}
    ensures ReadValue(t + rest) == Some((v, rest)) && SkipSpace(t + rest) == t + rest
  {
    match v {
      case Str(s) =>
        var inner := t[1..|t| - 1];
        ReadSpelled(inner, s, rest);
        hide ReadStr, Spells;
        assert (t + rest)[0] == QUOTE && (t + rest)[1..] == inner + ([QUOTE] + rest);
      case _ =>
        ReadPrintedValue(v, rest);
        NoSpace(v, rest);
    }
  }

  lemma NoBlank(s: seq<Code>)
    requires s != [] && s[0] !in {32, 9, 10, 13}
    ensures SkipSpace(s) == s
  {
  }

  lemma MemberRead(s: seq<Code>, key: seq<Code>, afterKey: seq<Code>, colon: seq<Code>, value: seq<Code>, v: Value,
                   behind: seq<Code>, rest: seq<Code>)
    requires s != [] && s[0] == QUOTE && ReadStr(s[1..]) == Some((key, afterKey))
    requires SkipSpace(afterKey) == colon && colon != [] && colon[0] == 58 && SkipSpace(colon[1..]) == value
    requires ReadValue(value) == Some((v, behind)) && SkipSpace(behind) == rest
    ensures ReadMember(s) == Some((key, v, rest))
  {
    hide ReadStr, ReadValue, SkipSpace;
  }

  lemma ReadPart(p: Part, m: (seq<Code>, Value), rest: seq<Code>)
    requires PartIs(p, m) && rest != [] && rest[0] in {44, 125}
    ensures ReadMember(SkipSpace(PartText(p) + rest)) == Some((m.0, m.1, rest))
  {
    hide Spells, SpellsValue, ReadStr, ReadValue, ReadMember, SkipSpace, Blank;
    var behind := p.after + rest;
    var value := p.value + behind;
    var colon := [58] + (p.behind + value);
    var key := p.key + ([QUOTE] + (p.mid + colon));
    SpacedBehind(p.after, rest);
    ReadSpelledValue(p.value, m.1, behind);
    SkipsBlank(p.after, rest);
    SkipsBlank(p.behind, value);
    SkipsBlank(p.mid, colon);
    ReadSpelled(p.key, m.0, p.mid + colon);
    SkipsBlank(p.before, [QUOTE] + key);
    assert PartText(p) + rest == p.before + ([QUOTE] + key);
    assert colon[1..] == p.behind + value && ([QUOTE] + key)[1..] == key;
    NoBlank([QUOTE] + key);
    NoBlank(colon);
    MemberRead([QUOTE] + key, m.0, p.mid + colon, colon, value, m.1, behind, rest);
  }

  lemma SpacedBehind(ws: seq<Code>, rest: seq<Code>)
    requires Blank(ws) && rest != [] && rest[0] in {44, 125}
    ensures ws + rest != [] && (ws + rest)[0] in {32, 9, 10, 13, 44, 125}
    ensures SkipSpace(rest) == rest
  {
    if ws != [] {
      assert ws[0] in ws;
    }
  }

  lemma {:induction false} ReadParts(ps: seq<Part>, h: Header, was: Header, rest: seq<Code>)
    requires ps != [] && PartsAre(ps, h)
    ensures ReadMembers(SkipSpace(PartsText(ps) + ([125] + rest)), was) == Some((PutAll(was, h), rest))
    decreases |ps|
  {
    hide PartText, PartIs, ReadMember, SkipSpace;
    var m, now := h[0], Put(was, h[0].0, h[0].1);
    if |ps| == 1 {
      ReadPart(ps[0], m, [125] + rest);
      assert ([125] + rest)[1..] == rest && h[1..] == [] && PutAll(now, []) == now;
    } else {
      var next := PartsText(ps[1..]) + ([125] + rest);
      assert PartsText(ps) + ([125] + rest) == PartText(ps[0]) + ([44] + next);
      ReadPart(ps[0], m, [44] + next);
      assert ([44] + next)[1..] == next;
      ReadParts(ps[1..], h[1..], now, rest);
    }
  }

  /** Every spelling of an object is read as that object. */
  lemma LoadsSpelled(ps: seq<Part>, h: Header, before: seq<Code>, after: seq<Code>)
    requires Blank(before) && Blank(after) && ps != [] && PartsAre(ps, h)
    ensures Loads(before + ([123] + (PartsText(ps) + ([125] + after)))) == Some(PutAll([], h))
    ensures Distinct(h) ==> PutAll([], h) == h
  {
    var inner := PartsText(ps) + ([125] + after);
    SkipsBlank(before, [123] + inner);
    SkipsBlank(after, []);
    assert after + [] == after && ([123] + inner)[1..] == inner;
    ReadParts(ps, h, [], after);
    StartsWithQuote(ps, h, [125] + after);
    if Distinct(h) {
      assert [] + h == h;
      PutAllDistinct([], h);
    }
  }

  lemma StartsWithQuote(ps: seq<Part>, h: Header, rest: seq<Code>)
    requires ps != [] && PartsAre(ps, h)
    ensures var s := SkipSpace(PartsText(ps) + rest); s != [] && s[0] == QUOTE
  {
    hide Spells, SpellsValue;
    var p := ps[0];
    assert PartIs(p, h[0]);
    var s := PartsText(ps) + rest;
    var tail := s[|p.before|..];
    assert s == p.before + tail && tail[0] == QUOTE;
    SkipsBlank(p.before, tail);
  }

  lemma {:induction false} PutAllDistinct(was: Header, h: Header)
    requires Distinct(was + h)
    ensures PutAll(was, h) == was + h
    decreases |h|
  {
    if h == [] {
      assert was + h == was;
    } else {
      var m := h[0];
      assert (was + h)[|was|] == m;
      forall i | 0 <= i < |was| ensures was[i].0 != m.0 { assert (was + h)[i] == was[i]; }
      PutNew(was, m.0, m.1);
      assert was + [m] + h[1..] == was + h;
      PutAllDistinct(was + [m], h[1..]);
    }
  }

  /** An object with nothing in it, however it is spaced. */
  lemma LoadsEmpty(before: seq<Code>, within: seq<Code>, after: seq<Code>)
    requires Blank(before) && Blank(within) && Blank(after)
    ensures Loads(before + ([123] + (within + ([125] + after)))) == Some([])
  {
    var inner := within + ([125] + after);
    SkipsBlank(before, [123] + inner);
    SkipsBlank(within, [125] + after);
    SkipsBlank(after, []);
    assert after + [] == after && ([123] + inner)[1..] == inner && ([125] + after)[1..] == after;
  }
}
