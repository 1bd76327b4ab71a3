/** `hx.surface`: the template a path is recorded under. */
module Surface {
  import opened Utf8
  import opened Percent
  import Text

  const SLASH: Code := 47
  const OPEN: Code := 123
  const CLOSE: Code := 125
  const MAX_DECODE_ROUNDS := 16

  // ---- decoding to a fixed point ----

  function Rounds(s: seq<Code>, n: nat): seq<Code>
    decreases n
  {
    if n == 0 || DecodeOnce(s) == s then s else Rounds(DecodeOnce(s), n - 1)
  }

  /** The reading a segment is templated by: never one that splits it. */
  function Reading(seg: seq<Code>): seq<Code> {
    var d := Rounds(seg, MAX_DECODE_ROUNDS);
    if SLASH in d then seg else d
  }

  /** What `n` rounds make of a segment. */
  function Iterated(s: seq<Code>, n: nat): seq<Code> {
    if n == 0 then s else DecodeOnce(Iterated(s, n - 1))
  }

  /** `n` rounds take `s` to `f`, and a further one would change nothing. */
  predicate Reaches(s: seq<Code>, n: nat, f: seq<Code>) {
    Iterated(s, n) == f && DecodeOnce(f) == f
  }

  lemma {:induction false} IteratedBehind(s: seq<Code>, n: nat)
    ensures Iterated(DecodeOnce(s), n) == Iterated(s, n + 1)
  {
    hide DecodeOnce;
    if n > 0 {
      IteratedBehind(s, n - 1);
    }
  }

  lemma {:induction false} RoundsIterate(s: seq<Code>, n: nat)
    ensures Rounds(s, n) == Iterated(s, n)
    decreases n
  {
    hide DecodeOnce;
    if n > 0 {
      if DecodeOnce(s) == s {
        ReachedStays(s, 0, n);
      } else {
        RoundsIterate(DecodeOnce(s), n - 1);
        IteratedBehind(s, n - 1);
      }
    }
  }

  lemma {:induction false} ReachedStays(s: seq<Code>, n: nat, m: nat)
    requires n <= m && DecodeOnce(Iterated(s, n)) == Iterated(s, n)
    ensures Iterated(s, m) == Iterated(s, n)
    decreases m
  {
    hide DecodeOnce;
    if n < m {
      ReachedStays(s, n, m - 1);
    }
  }

  /** A segment is read as the fixed point that repeated decoding reaches, or left
      verbatim where that holds a slash. */
  lemma ReadingMeans(seg: seq<Code>, n: nat, f: seq<Code>)
    requires n <= MAX_DECODE_ROUNDS && Reaches(seg, n, f)
    ensures Reading(seg) == if SLASH in f then seg else f
  {
    hide DecodeOnce;
    RoundsIterate(seg, MAX_DECODE_ROUNDS);
    ReachedStays(seg, n, MAX_DECODE_ROUNDS);
  }

  /** Every segment reaches one, and one of at most 34 characters within the bound. */
  lemma {:induction false} AlwaysReaches(seg: seq<Code>) returns (n: nat, f: seq<Code>)
    ensures Reaches(seg, n, f) && (|seg| <= 2 * MAX_DECODE_ROUNDS + 2 ==> n <= MAX_DECODE_ROUNDS)
    decreases |seg|
  {
    RoundShrinks(seg);
    hide DecodeOnce;
    if DecodeOnce(seg) == seg {
      n, f := 0, seg;
    } else {
      n, f := AlwaysReaches(DecodeOnce(seg));
      IteratedBehind(seg, n);
      n := n + 1;
      if |seg| <= 2 * MAX_DECODE_ROUNDS + 2 {
        FixedWithin(seg);
        RoundsIterate(seg, MAX_DECODE_ROUNDS);
        if n > MAX_DECODE_ROUNDS {
          ReachedStays(seg, MAX_DECODE_ROUNDS, n);
          n := MAX_DECODE_ROUNDS;
        }
      }
    }
  }

  /** The loop's result, by what repeated decoding reaches; past the bound it is as
      far as the rounds came. */
  method DecodeSegment(seg: seq<Code>) returns (r: seq<Code>)
    ensures r == Reading(seg)
    ensures forall n: nat, f :: n <= MAX_DECODE_ROUNDS && Reaches(seg, n, f) ==> r == if SLASH in f then seg else f
    ensures r == seg || r == Iterated(seg, MAX_DECODE_ROUNDS)
    ensures |seg| <= 2 * MAX_DECODE_ROUNDS + 2 ==>
      || DecodeOnce(r) == r
      || (r == seg && exists n: nat, f :: Reaches(seg, n, f) && SLASH in f)
  {
    hide DecodeOnce;
    RoundsIterate(seg, MAX_DECODE_ROUNDS);
    ghost var m, g := AlwaysReaches(seg);
    forall n: nat, f | n <= MAX_DECODE_ROUNDS && Reaches(seg, n, f)
      ensures Reading(seg) == if SLASH in f then seg else f
    {
      ReadingMeans(seg, n, f);
    }
    var decoded := seg;
    for n := 0 to MAX_DECODE_ROUNDS
      invariant Rounds(decoded, MAX_DECODE_ROUNDS - n) == Rounds(seg, MAX_DECODE_ROUNDS)
    {
      var next := DecodeOnce(decoded);
      if next == decoded {
        break;
      }
      decoded := next;
    }
    r := if SLASH in decoded then seg else decoded;
  }

  lemma {:induction false} RoundsShrink(s: seq<Code>, n: nat)
    ensures DecodeOnce(Rounds(s, n)) == Rounds(s, n) || |Rounds(s, n)| <= |s| - 2 * n
    decreases n
  {
    hide DecodeOnce;
    if n > 0 && DecodeOnce(s) != s {
      RoundShrinks(s);
      RoundsShrink(DecodeOnce(s), n - 1);
    }
  }

  lemma ShortHasNoEscape(s: seq<Code>)
    requires |s| <= 2
    ensures DecodeOnce(s) == s
  {
    RoundShrinks(s);
  }

  /** Sixteen rounds are enough for any segment of at most 34 characters. */
  lemma FixedWithin(s: seq<Code>)
    requires |s| <= 2 * MAX_DECODE_ROUNDS + 2
    ensures DecodeOnce(Rounds(s, MAX_DECODE_ROUNDS)) == Rounds(s, MAX_DECODE_ROUNDS)
  {
    RoundsShrink(s, MAX_DECODE_ROUNDS);
    if |Rounds(s, MAX_DECODE_ROUNDS)| <= 2 {
      ShortHasNoEscape(Rounds(s, MAX_DECODE_ROUNDS));
    }
  }

  /** A `%` escaped `n` times over. */
  function Nested(n: nat): (s: seq<Code>)
    ensures |s| == 2 * n + 1 && s[0] == SIGN && IsAscii(s)
    ensures forall i :: 0 < i < |s| ==> s[i] == 50 || s[i] == 53
    ensures n > 0 ==> s[1] == 50 && s[2] == 53 && s[3..] == Nested(n - 1)[1..]
  {
    if n == 0 then [SIGN] else [SIGN, 50, 53] + Nested(n - 1)[1..]
  }

  lemma {:induction false} DigitsUnescaped(s: seq<Code>)
    requires forall i :: 0 <= i < |s| ==> s[i] == 50 || s[i] == 53
    ensures !HasEscape(s)
  {
  }

  lemma NestedRound(n: nat)
    requires n > 0
    ensures DecodeOnce(Nested(n)) == Nested(n - 1)
  {
    var s := Nested(n);
    WholeRun(s);
    DigitsUnescaped(s[3..]);
    UnescapeLength(s[3..]);
    assert Unescape(s) == [SIGN] + s[3..];
    assert [SIGN] + s[3..] == Nested(n - 1);
    DecodeAscii(Nested(n - 1));
    PartsStep(s);
    assert s[..|s|] == s && s[|s|..] == [];
    assert Nested(n - 1) + [] == Nested(n - 1);
  }

  lemma {:induction false} WholeRun(s: seq<Code>)
    requires IsAscii(s)
    ensures AsciiRun(s) == |s|
  {
    if s != [] {
      WholeRun(s[1..]);
    }
  }

  lemma {:induction false} NestedRounds(n: nat, m: nat)
    requires m <= n
    ensures Rounds(Nested(n), m) == Nested(n - m)
  {
    hide DecodeOnce, Nested, IsAscii;
    if m > 0 {
      NestedRound(n);
      NestedRounds(n - 1, m - 1);
    }
  }

  /** And not for every one of 35: the bound is exact. */
  lemma NotFixedAtThirtyFive()
    ensures |Nested(17)| == 35
    ensures DecodeOnce(Rounds(Nested(17), MAX_DECODE_ROUNDS)) != Rounds(Nested(17), MAX_DECODE_ROUNDS)
  {
    hide DecodeOnce;
    NestedRounds(17, MAX_DECODE_ROUNDS);
    NestedRound(1);
  }

  /** However a text with no `%` in it is spelt, one round reads it. */
  lemma SpeltDecodes(d: seq<Code>, escaped: seq<bool>)
    requires IsAscii(d) && SIGN !in d && |escaped| == |d|
    ensures DecodeOnce(Spelling(d, escaped)) == d && DecodeOnce(d) == d
  {
    var s := Spelling(d, escaped);
    SpellingUnescapes(d, escaped);
    DecodeAscii(d);
    AsciiDecodes(s);
    RoundShrinks(d);
  }

  lemma AsciiDecodes(s: seq<Code>)
    requires IsAscii(s)
    ensures DecodeParts(s) == Decode(Unescape(s))
  {
    if s != [] {
      WholeRun(s);
      PartsStep(s);
      assert s[..|s|] == s && s[|s|..] == [];
      var run := Decode(Unescape(s));
      assert run.Some? ==> run.value + [] == run.value;
    }
  }

  // ---- kept segments ----

  function KeptOne(c: Code): seq<Code> {
    if c == OPEN then [SIGN, 55, 66] else if c == CLOSE then [SIGN, 55, 68] else [c]
  }

  /** `seg.replace("{", "%7B").replace("}", "%7D")`. */
  function Kept(seg: seq<Code>): seq<Code> {
    if seg == [] then [] else KeptOne(seg[0]) + Kept(seg[1..])
  }

  lemma {:induction false} KeptUnbraced(seg: seq<Code>)
    ensures OPEN !in Kept(seg) && CLOSE !in Kept(seg)
    ensures SLASH in Kept(seg) <==> SLASH in seg
    ensures Kept(seg) == [] <==> seg == []
  {
    if seg != [] {
      KeptUnbraced(seg[1..]);
      assert seg == [seg[0]] + seg[1..];
    }
  }

  lemma KeptCons(c: Code, s: seq<Code>)
    ensures Kept([c] + s) == KeptOne(c) + Kept(s)
  {
    assert ([c] + s)[1..] == s;
  }

  lemma KeptStep(a: seq<Code>, b: seq<Code>)
    requires a != []
    ensures Kept(a + b) == KeptOne(a[0]) + Kept(a[1..] + b)
    ensures Kept(a) == KeptOne(a[0]) + Kept(a[1..])
  {
    hide KeptOne;
    assert (a + b)[0] == a[0] && (a + b)[1..] == a[1..] + b;
  }

  lemma {:induction false} KeptConcat(a: seq<Code>, b: seq<Code>)
    ensures Kept(a + b) == Kept(a) + Kept(b)
  {
    if a == [] {
      assert a + b == b && Kept(a) == [];
    } else {
      KeptStep(a, b);
      hide Kept, KeptOne;
      KeptConcat(a[1..], b);
      Text.Associates(KeptOne(a[0]), Kept(a[1..]), Kept(b));
    }
  }

  /** Escaping a brace opens no escape that was not there. */
  lemma KeptEscapes(s: seq<Code>)
    requires s != [] && s[0] == SIGN
    ensures EscapeAt(Kept(s)) <==> EscapeAt(s)
  {
    var rest := s[1..];
    if rest != [] {
      assert Kept(rest) == KeptOne(rest[0]) + Kept(rest[1..]);
      if |rest| > 1 {
        assert Kept(rest[1..]) == KeptOne(rest[1]) + Kept(rest[1..][1..]);
      }
    }
  }

  lemma UnescapeBrace(c: Code, rest: seq<Code>)
    requires (c == OPEN || c == CLOSE) && IsAscii(rest)
    ensures IsAscii(KeptOne(c) + rest) && Unescape(KeptOne(c) + rest) == [c] + Unescape(rest)
  {
    var k := KeptOne(c) + rest;
    assert k[3..] == rest;
  }

  lemma UnescapeEscape(s: seq<Code>, rest: seq<Code>)
    requires IsAscii(s) && EscapeAt(s) && IsAscii(rest)
    ensures IsAscii(s[..3] + rest) && Unescape(s[..3] + rest) == [EscapedByte(s)] + Unescape(rest)
  {
    var k := s[..3] + rest;
    assert k[0] == s[0] && k[1] == s[1] && k[2] == s[2] && k[3..] == rest;
  }

  lemma UnescapePlain(c: Code, rest: seq<Code>)
    requires c < 0x80 && IsAscii(rest) && !EscapeAt([c] + rest)
    ensures IsAscii([c] + rest) && Unescape([c] + rest) == [c] + Unescape(rest)
  {
    assert ([c] + rest)[1..] == rest;
  }

  lemma {:induction false} KeptUnescapes(s: seq<Code>)
    requires IsAscii(s)
    ensures IsAscii(Kept(s)) && Unescape(Kept(s)) == Unescape(s)
    decreases |s|
  {
    if s == [] {
      assert Kept(s) == [];
    } else if s[0] == OPEN || s[0] == CLOSE {
      KeptUnescapes(s[1..]);
      UnescapeBrace(s[0], Kept(s[1..]));
      UnescapePlain(s[0], s[1..]);
      hide Unescape, KeptOne;
      assert s == [s[0]] + s[1..];
    } else if EscapeAt(s) {
      KeptUnescapes(s[3..]);
      KeptConcat(s[..3], s[3..]);
      assert s == s[..3] + s[3..] && s[..3] == [s[0], s[1], s[2]];
      KeptThree(s[0], s[1], s[2]);
      hide Unescape, Kept;
      UnescapeEscape(s, Kept(s[3..]));
      UnescapeEscape(s, s[3..]);
    } else {
      if s[0] == SIGN {
        KeptEscapes(s);
      }
      KeptUnescapes(s[1..]);
      assert Kept(s) == [s[0]] + Kept(s[1..]);
      assert s == [s[0]] + s[1..];
      hide Unescape, Kept;
      UnescapePlain(s[0], Kept(s[1..]));
      UnescapePlain(s[0], s[1..]);
    }
  }

  lemma KeptThree(a: Code, b: Code, c: Code)
    requires a !in {OPEN, CLOSE} && b !in {OPEN, CLOSE} && c !in {OPEN, CLOSE}
    ensures Kept([a, b, c]) == [a, b, c]
  {
    KeptCons(c, []);
    KeptCons(b, [c]);
    KeptCons(a, [b, c]);
    assert [c] + [] == [c] && [b] + [c] == [b, c] && [a] + [b, c] == [a, b, c];
  }

  lemma KeptRun(s: seq<Code>)
    ensures AsciiRun(Kept(s)) == |Kept(s[..AsciiRun(s)])|
    ensures Kept(s) == Kept(s[..AsciiRun(s)]) + Kept(s[AsciiRun(s)..])
  {
    var n := AsciiRun(s);
    var a, b := s[..n], s[n..];
    assert s == a + b;
    KeptConcat(a, b);
    KeptUnescapes(a);
    if b != [] {
      assert Kept(b)[0] == b[0];
    }
    RunOf(Kept(a), Kept(b));
  }

  lemma {:induction false} RunOf(a: seq<Code>, b: seq<Code>)
    requires IsAscii(a) && (b == [] || b[0] >= 0x80)
    ensures AsciiRun(a + b) == |a|
  {
    if a == [] {
      assert a + b == b;
    } else {
      RunOf(a[1..], b);
      assert (a + b)[1..] == a[1..] + b;
    }
  }

  /** Keeping a segment loses nothing that decoding it would see. */
  lemma {:induction false} KeptDecodes(s: seq<Code>)
    ensures DecodeParts(Kept(s)) == DecodeParts(s)
    decreases |s|
  {
    if s != [] {
      var n := AsciiRun(s);
      KeptRun(s);
      KeptUnbraced(s[..n]);
      PartsStep(s);
      KeptUnbraced(s);
      PartsStep(Kept(s));
      hide DecodeParts, AsciiRun, Unescape, Decode;
      if n == 0 {
        KeptDecodes(s[1..]);
        assert Kept(s[..0]) == [];
        assert Kept(s)[1..] == Kept(s[1..]);
      } else {
        KeptDecodes(s[n..]);
        KeptUnescapes(s[..n]);
        assert Kept(s)[..|Kept(s[..n])|] == Kept(s[..n]) && Kept(s)[|Kept(s[..n])|..] == Kept(s[n..]);
      }
    }
  }

  /** Decoding undoes keeping exactly where no escape could be read, or where
      nothing was escaped and nothing can be read. */
  lemma KeptReadsBack(s: seq<Code>)
    ensures DecodeOnce(Kept(s)) == s <==>
              !HasEscape(s) || (DecodeParts(s).None? && OPEN !in s && CLOSE !in s)
  {
    KeptDecodes(s);
    RoundShrinks(s);
    KeptSame(s);
    if !HasEscape(s) {
      PartsSame(s);
    }
    hide DecodeParts, HasEscape, Kept;
    if DecodeParts(s).None? {
      assert DecodeOnce(Kept(s)) == Kept(s);
    } else {
      assert DecodeOnce(Kept(s)) == DecodeOnce(s);
    }
  }

  lemma {:induction false} KeptSame(s: seq<Code>)
    ensures |Kept(s)| >= |s| && (Kept(s) == s <==> OPEN !in s && CLOSE !in s)
  {
    if s != [] {
      KeptSame(s[1..]);
      assert s == [s[0]] + s[1..];
      if Kept(s) == s && OPEN !in KeptOne(s[0]) {
        KeptUnbraced(s);
      }
    }
  }

  /** Two segments at their fixed point are kept alike only if they are one, or if
      neither is UTF-8. */
  lemma KeptInjective(s: seq<Code>, t: seq<Code>)
    requires DecodeOnce(s) == s && DecodeOnce(t) == t && Kept(s) == Kept(t) && s != t
    ensures DecodeParts(s).None? && DecodeParts(t).None?
  {
    KeptDecodes(s);
    KeptDecodes(t);
  }

  /** A brace escaped as `Kept` escapes it. */
  predicate SpeltBrace(s: seq<Code>, i: nat) {
    i + 3 <= |s| && s[i] == SIGN && s[i + 1] == 55 && (s[i + 2] == 66 || s[i + 2] == 68)
  }

  /** Another fixed point is kept as `s` is. */
  ghost predicate Merged(s: seq<Code>, t: seq<Code>) {
    t != s && DecodeOnce(t) == t && Kept(t) == Kept(s)
  }

  lemma KeptAround(a: seq<Code>, c: Code, b: seq<Code>)
    ensures Kept(a + [c] + b) == Kept(a) + KeptOne(c) + Kept(b)
  {
    KeptConcat(a + [c], b);
    KeptConcat(a, [c]);
    KeptCons(c, []);
    assert [c] + [] == [c] && KeptOne(c) + [] == KeptOne(c);
  }

  /** The brace some spelling in a braceless segment could have been. */
  lemma Unspelt(s: seq<Code>, i: nat) returns (t: seq<Code>)
    requires SpeltBrace(s, i) && OPEN !in s && CLOSE !in s
    ensures t != s && Kept(t) == Kept(s)
  {
    var c: Code := if s[i + 2] == 66 then OPEN else CLOSE;
    var a, b := s[..i], s[i + 3..];
    assert s == a + KeptOne(c) + b;
    t := a + [c] + b;
    assert t[i] == c;
    hide Kept, KeptOne, SpeltBrace;
    KeptAround(a, c, b);
    KeptSame(s);
    KeptSame(a);
    KeptSame(b);
  }

  /** What keeping a brace leaves behind. */
  lemma Spelt(t: seq<Code>)
    requires OPEN in t || CLOSE in t
    ensures exists i :: SpeltBrace(Kept(t), i)
  {
    var j :| 0 <= j < |t| && (t[j] == OPEN || t[j] == CLOSE);
    var a, c, b := t[..j], t[j], t[j + 1..];
    assert t == a + [c] + b;
    KeptAround(a, c, b);
    var k, n := Kept(t), |Kept(a)|;
    assert k[n] == SIGN && k[n + 1] == 55 && k[n + 2] == KeptOne(c)[2];
    assert SpeltBrace(k, n);
  }

  /** A fixed point shares its kept form with another exactly when it is not UTF-8
      and holds a brace, or the spelling of one. */
  lemma KeptMerges(s: seq<Code>)
    requires DecodeOnce(s) == s
    ensures (exists t :: Merged(s, t)) <==>
              DecodeParts(s).None? && (OPEN in s || CLOSE in s || exists i :: SpeltBrace(s, i))
  {
    hide DecodeParts, Kept, SpeltBrace;
    KeptSame(s);
    if exists t :: Merged(s, t) {
      var t :| Merged(s, t);
      KeptInjective(s, t);
      KeptSame(t);
      if OPEN in t || CLOSE in t {
        Spelt(t);
      }
    }
    if DecodeParts(s).None? {
      if OPEN in s || CLOSE in s {
        KeptTwice(s);
        assert Merged(s, Kept(s));
      } else if exists i :: SpeltBrace(s, i) {
        var i :| SpeltBrace(s, i);
        var t := Unspelt(s, i);
        SameReading(s, t);
        assert Merged(s, t);
      }
    }
  }

  lemma SameReading(s: seq<Code>, t: seq<Code>)
    requires DecodeParts(s).None? && Kept(s) == Kept(t)
    ensures DecodeOnce(t) == t
  {
    KeptDecodes(s);
    KeptDecodes(t);
  }

  lemma KeptTwice(s: seq<Code>)
    requires DecodeParts(s).None?
    ensures Kept(Kept(s)) == Kept(s) && DecodeOnce(Kept(s)) == Kept(s)
  {
    KeptDecodes(s);
    KeptUnbraced(s);
    KeptSame(Kept(s));
  }

  /** `%FF{` and `%FF%7B` are two segments, each its own reading, and one row. */
  lemma KeptMergesOne()
    ensures var s: seq<Code> := [SIGN, 70, 70, OPEN];
      DecodeOnce(s) == s && Kept(s) == [SIGN, 70, 70, SIGN, 55, 66] && Merged(s, Kept(s))
  {
    var a: seq<Code> := [SIGN, 70, 70];
    var s, t := a + [OPEN], a + [SIGN, 55, 66];
    KeptThree(SIGN, 70, 70);
    KeptThree(SIGN, 55, 66);
    KeptConcat(a, [OPEN]);
    KeptConcat(a, [SIGN, 55, 66]);
    KeptCons(OPEN, []);
    KeptSame(t);
    assert [OPEN] + [] == [OPEN] && KeptOne(OPEN) + [] == [SIGN, 55, 66];
    NotUtf8(s);
    NotUtf8(t);
    assert s == [SIGN, 70, 70, OPEN] && t == [SIGN, 70, 70, SIGN, 55, 66];
  }

  lemma NotUtf8(s: seq<Code>)
    requires IsAscii(s) && |s| >= 3 && s[0] == SIGN && s[1] == 70 && s[2] == 70
    ensures DecodeParts(s).None?
  {
    WholeRun(s);
    PartsStep(s);
    assert s[..|s|] == s;
    assert Unescape(s)[0] == 0xFF;
    assert Utf8.DecodeOne(Unescape(s)).None?;
  }
}
