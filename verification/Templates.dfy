/** `hx.surface`: which segments a template replaces, and what no kept segment can
    pass for. */
module Templates {
  import opened Utf8
  import opened Chars
  import opened Percent
  import opened Surface

  predicate Uuid(s: seq<Code>) {
    |s| == 36 && forall i :: 0 <= i < 36 ==>
      if i == 8 || i == 13 || i == 18 || i == 23 then s[i] == 45 else HexValue(s[i]).Some?
  }

  predicate LongHex(s: seq<Code>) {
    |s| >= 32 && forall i :: 0 <= i < |s| ==> HexValue(s[i]).Some?
  }

  predicate Slug(s: seq<Code>, threshold: int) {
    |s| >= threshold && exists i :: 0 <= i < |s| && IsDigit(s[i])
  }

  const ID: seq<Code> := [OPEN, 105, 100, CLOSE]
  const UUID_NAME: seq<Code> := [OPEN, 117, 117, 105, 100, CLOSE]
  const HEX_NAME: seq<Code> := [OPEN, 104, 101, 120, CLOSE]
  const SLUG_NAME: seq<Code> := [OPEN, 115, 108, 117, 103, CLOSE]

  function Template(seg: seq<Code>, preserve: set<seq<Code>>, threshold: int): seq<Code> {
    ByReading(Reading(seg), preserve, threshold)
  }

  function ByReading(d: seq<Code>, preserve: set<seq<Code>>, threshold: int): seq<Code> {
    if d in preserve then Kept(d)
    else if AllDigits(d) then ID
    else if Uuid(d) then UUID_NAME
    else if LongHex(d) then HEX_NAME
    else if Slug(d, threshold) then SLUG_NAME
    else Kept(d)
  }

  /** One character of a hexadecimal number, of either case. */
  predicate Hex(c: Code) {
    48 <= c <= 57 || 65 <= c <= 70 || 97 <= c <= 102
  }

  predicate Hexes(s: seq<Code>, n: nat) {
    |s| == n && forall c <- s :: Hex(c)
  }

  /** Hexadecimal groups of 8, 4, 4, 4 and 12, between dashes. */
  predicate Grouped(s: seq<Code>) {
    && |s| == 36
    && s == s[..8] + [45] + s[9..13] + [45] + s[14..18] + [45] + s[19..23] + [45] + s[24..]
    && Hexes(s[..8], 8) && Hexes(s[9..13], 4) && Hexes(s[14..18], 4) && Hexes(s[19..23], 4) && Hexes(s[24..], 12)
  }

  lemma UuidIsGrouped(s: seq<Code>)
    ensures Uuid(s) <==> Grouped(s)
  {
    assert forall c :: HexValue(c).Some? <==> Hex(c);
    if |s| == 36 {
      var t := s[..8] + [45] + s[9..13] + [45] + s[14..18] + [45] + s[19..23] + [45] + s[24..];
      assert t[8] == 45 && t[13] == 45 && t[18] == 45 && t[23] == 45;
      assert s == t <==> s[8] == 45 && s[13] == 45 && s[18] == 45 && s[23] == 45;
    }
  }

  /** The shapes: decimal digits; a UUID; 32 or more hexadecimal digits; as long as the
      threshold, with a digit in it. */
  lemma ShapesMean(s: seq<Code>, threshold: int)
    ensures AllDigits(s) <==> s != [] && forall c <- s :: 48 <= c <= 57
    ensures Uuid(s) <==> Grouped(s)
    ensures LongHex(s) <==> 32 <= |s| && Hexes(s, |s|)
    ensures Slug(s, threshold) <==> threshold <= |s| && exists c <- s :: 48 <= c <= 57
  {
    hide Uuid, Grouped;
    UuidIsGrouped(s);
    assert forall c :: HexValue(c).Some? <==> Hex(c);
    assert forall i :: 0 <= i < |s| ==> s[i] in s;
    if c :| c in s && 48 <= c <= 57 {
      var i :| 0 <= i < |s| && s[i] == c;
      assert IsDigit(s[i]);
    }
  }

  /** `is_placeholder`: in braces, with something between. */
  predicate Braced(s: seq<Code>) {
    |s| > 2 && s[0] == OPEN && s[|s| - 1] == CLOSE
  }

  predicate ShapeFires(d: seq<Code>, preserve: set<seq<Code>>, threshold: int) {
    d !in preserve && (AllDigits(d) || Uuid(d) || LongHex(d) || Slug(d, threshold))
  }

  /** A segment is templated exactly where a shape rule fired: nothing a request
      can spell is kept as a placeholder. */
  lemma Unforgeable(seg: seq<Code>, preserve: set<seq<Code>>, threshold: int)
    ensures Braced(Template(seg, preserve, threshold)) <==> ShapeFires(Reading(seg), preserve, threshold)
    ensures OPEN in Template(seg, preserve, threshold) <==> ShapeFires(Reading(seg), preserve, threshold)
    ensures CLOSE in Template(seg, preserve, threshold) <==> ShapeFires(Reading(seg), preserve, threshold)
  {
    hide Reading, Kept;
    KeptUnbraced(Reading(seg));
  }

  /** Which name a segment is templated by: none where the operator preserves it, and
      else the first shape that it has. */
  lemma NamedByShape(seg: seq<Code>, preserve: set<seq<Code>>, threshold: int)
    ensures var d, t := Reading(seg), Template(seg, preserve, threshold);
      && (t == ID <==> d !in preserve && AllDigits(d))
      && (t == UUID_NAME <==> d !in preserve && Uuid(d))
      && (t == HEX_NAME <==> d !in preserve && LongHex(d) && !AllDigits(d))
      && (t == SLUG_NAME <==> d !in preserve && Slug(d, threshold) && !AllDigits(d) && !Uuid(d) && !LongHex(d))
      && (t !in {ID, UUID_NAME, HEX_NAME, SLUG_NAME} ==> t == Kept(d))
  {
    hide Reading, Kept, Slug;
    var d := Reading(seg);
    KeptUnbraced(d);
    assert ID[0] == OPEN && UUID_NAME[0] == OPEN && HEX_NAME[0] == OPEN && SLUG_NAME[0] == OPEN;
    assert ID[1] == 105 && UUID_NAME[1] == 117 && HEX_NAME[1] == 104 && SLUG_NAME[1] == 115;
    assert Uuid(d) ==> d[8] == 45;
  }

  /** A spelling, what one round makes of it and the fixed point it comes to are of
      one template, unless that holds a slash. */
  lemma RoundsTemplateAlike(seg: seq<Code>, n: nat, f: seq<Code>, preserve: set<seq<Code>>, threshold: int)
    requires n <= MAX_DECODE_ROUNDS && Reaches(seg, n, f) && SLASH !in f
    ensures Template(seg, preserve, threshold) == Template(f, preserve, threshold)
    ensures Template(seg, preserve, threshold) == Template(DecodeOnce(seg), preserve, threshold)
  {
    hide DecodeOnce, Reading, ByReading;
    ReadingMeans(seg, n, f);
    assert Reaches(f, 0, f);
    ReadingMeans(f, 0, f);
    if n == 0 {
      assert seg == f;
    } else {
      IteratedBehind(seg, n - 1);
      assert Reaches(DecodeOnce(seg), n - 1, f);
      ReadingMeans(DecodeOnce(seg), n - 1, f);
    }
  }

  /** A text with no `%` and no slash in it has one template however it is spelt. */
  lemma SpeltTemplatesAlike(d: seq<Code>, escaped: seq<bool>, preserve: set<seq<Code>>, threshold: int)
    requires IsAscii(d) && SIGN !in d && SLASH !in d && |escaped| == |d|
    ensures Template(Spelling(d, escaped), preserve, threshold) == Template(d, preserve, threshold)
    ensures Reading(d) == d
  {
    SpeltDecodes(d, escaped);
    hide DecodeOnce, Reading, ByReading;
    var s := Spelling(d, escaped);
    assert Iterated(s, 0) == s;
    assert Reaches(s, 1, d) && Reaches(d, 0, d);
    RoundsTemplateAlike(s, 1, d, preserve, threshold);
    ReadingMeans(d, 0, d);
  }

  /** A number is `{id}`, whichever of its digits are escaped. */
  lemma NumbersAreIds(d: seq<Code>, escaped: seq<bool>, preserve: set<seq<Code>>, threshold: int)
    requires AllDigits(d) && d !in preserve && |escaped| == |d|
    ensures Template(Spelling(d, escaped), preserve, threshold) == ID
  {
    hide Template;
    SpeltTemplatesAlike(d, escaped, preserve, threshold);
    NamedByShape(d, preserve, threshold);
  }

  lemma ReadingHasNoSlash(seg: seq<Code>)
    requires SLASH !in seg
    ensures SLASH !in Reading(seg)
  {
  }

  lemma TemplateHasNoSlash(seg: seq<Code>, preserve: set<seq<Code>>, threshold: int)
    requires SLASH !in seg
    ensures SLASH !in Template(seg, preserve, threshold)
  {
    ReadingHasNoSlash(seg);
    hide Rounds, Reading, Kept, Uuid, LongHex, AllDigits, Slug;
    KeptUnbraced(Reading(seg));
  }

  /** Spelling a segment with its escapes or without is one template, as far as the
      rounds reach. */
  lemma SpellingsTemplateAlike(seg: seq<Code>, preserve: set<seq<Code>>, threshold: int)
    requires |seg| <= 2 * MAX_DECODE_ROUNDS + 2 && SLASH !in Rounds(seg, MAX_DECODE_ROUNDS)
    ensures Template(seg, preserve, threshold) == Template(Reading(seg), preserve, threshold)
  {
    hide Rounds, Reading, ByReading;
    ReadingTwice(seg);
  }

  lemma ReadingTwice(seg: seq<Code>)
    requires |seg| <= 2 * MAX_DECODE_ROUNDS + 2 && SLASH !in Rounds(seg, MAX_DECODE_ROUNDS)
    ensures Reading(Reading(seg)) == Reading(seg)
  {
    FixedWithin(seg);
    hide DecodeOnce;
  }

  /** A kept segment is read back from its own row: two requests recorded under one
      kept segment name one thing, where their readings hold no escape. */
  lemma KeptSegmentsNameOneReading(a: seq<Code>, b: seq<Code>, preserve: set<seq<Code>>, threshold: int)
    requires Template(a, preserve, threshold) == Template(b, preserve, threshold)
    requires !Braced(Template(a, preserve, threshold))
    requires !HasEscape(Reading(a)) && !HasEscape(Reading(b))
    ensures Reading(a) == Reading(b)
  {
    hide Reading, Kept, HasEscape, Braced, ShapeFires;
    Unforgeable(a, preserve, threshold);
    Unforgeable(b, preserve, threshold);
    KeptIfNoShape(a, preserve, threshold);
    KeptIfNoShape(b, preserve, threshold);
    KeptReadsBack(Reading(a));
    KeptReadsBack(Reading(b));
  }

  lemma KeptIfNoShape(seg: seq<Code>, preserve: set<seq<Code>>, threshold: int)
    requires !ShapeFires(Reading(seg), preserve, threshold)
    ensures Template(seg, preserve, threshold) == Kept(Reading(seg))
  {
    hide Reading, Kept;
  }

  // ---- paths ----

  function Each(segments: seq<seq<Code>>, preserve: set<seq<Code>>, threshold: int): (r: seq<seq<Code>>)
    ensures |r| == |segments|
    ensures forall i :: 0 <= i < |r| ==> r[i] == Template(segments[i], preserve, threshold)
  {
    seq(|segments|, i requires 0 <= i < |segments| => Template(segments[i], preserve, threshold))
  }

  /** Segment by segment, none joined and none split: the first is what it was and
      each of the others is its own template. */
  method PathTemplate(path: seq<Code>, preserve: set<seq<Code>>, threshold: int) returns (r: seq<Code>)
    ensures path == [] ==> r == [SLASH]
    ensures path != [] ==>
      var segments := Text.Split(path, SLASH);
      Text.Split(r, SLASH) == [segments[0]] + Each(segments[1..], preserve, threshold)
  {
    hide Template;
    if path == [] {
      return [SLASH];
    }
    var segments := Text.Split(path, SLASH);
    var out := [segments[0]];
    for n := 1 to |segments|
      invariant out == [segments[0]] + Each(segments[1..n], preserve, threshold)
      invariant forall i :: 0 <= i < |out| ==> SLASH !in out[i]
    {
      TemplateHasNoSlash(segments[n], preserve, threshold);
      assert segments[1..n + 1] == segments[1..n] + [segments[n]];
      out := out + [Template(segments[n], preserve, threshold)];
    }
    assert segments[1..|segments|] == segments[1..];
    r := Text.Join(out, SLASH);
    Text.SplitJoin(out, SLASH);
  }

  /** Every segment of a template but the first is in braces only where a rule
      fired on its own segment, and there are as many as the path had. */
  lemma PathsKeepTheirShape(path: seq<Code>, r: seq<Code>, preserve: set<seq<Code>>, threshold: int)
    requires path != []
    requires var segments := Text.Split(path, SLASH);
      Text.Split(r, SLASH) == [segments[0]] + Each(segments[1..], preserve, threshold)
    ensures var from, into := Text.Split(path, SLASH), Text.Split(r, SLASH);
      |into| == |from| && forall i :: 1 <= i < |from| ==>
        (Braced(into[i]) <==> ShapeFires(Reading(from[i]), preserve, threshold))
  {
    hide Template, Reading, Braced, ShapeFires;
    var from, into := Text.Split(path, SLASH), Text.Split(r, SLASH);
    forall i | 1 <= i < |from| ensures Braced(into[i]) <==> ShapeFires(Reading(from[i]), preserve, threshold) {
      assert into[i] == Template(from[1..][i - 1], preserve, threshold) && from[1..][i - 1] == from[i];
      Unforgeable(from[i], preserve, threshold);
    }
  }
}
