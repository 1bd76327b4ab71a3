/** `hx.surface.query_key_set`: a set of keys as one string. */
module QueryKeys {
  import opened Options
  import opened Utf8
  import opened Percent
  import Text

  const COMMA: Code := 44
  const EMPTY_KEY: seq<Code> := [40, 101, 109, 112, 116, 121, 41]

  /** Left as they are by `quote(key, safe="")`. */
  predicate Unreserved(b: Byte) {
    48 <= b <= 57 || 65 <= b <= 90 || 97 <= b <= 122 || b == 95 || b == 46 || b == 45 || b == 126
  }

  lemma UnreservedMeans(b: Byte)
    ensures var c := b as char;
      Unreserved(b) <==> 'A' <= c <= 'Z' || 'a' <= c <= 'z' || '0' <= c <= '9' || c in "_.-~"
  {
    assert "_.-~" == ['_', '.', '-', '~'];
  }

  function QuoteByte(b: Byte): seq<Code> {
    if Unreserved(b) then [b] else Escape(b)
  }

  function QuoteBytes(bs: seq<Byte>): seq<Code> {
    if bs == [] then [] else QuoteByte(bs[0]) + QuoteBytes(bs[1..])
  }

  function EncodedKey(key: seq<Code>): seq<Code>
    requires Clean(key)
  {
    if key == [] then EMPTY_KEY else QuoteBytes(Encode(key))
  }

  predicate Plain(c: Code) {
    c == SIGN || (c < 0x80 && Unreserved(c))
  }

  lemma {:induction false} QuotedPlain(bs: seq<Byte>)
    ensures forall i :: 0 <= i < |QuoteBytes(bs)| ==> Plain(QuoteBytes(bs)[i])
    ensures bs != [] ==> QuoteBytes(bs) != []
  {
    if bs != [] {
      QuotedPlain(bs[1..]);
      hide QuoteBytes;
    }
  }

  lemma QuotedCons(bs: seq<Byte>)
    requires bs != []
    ensures QuoteBytes(bs) == QuoteByte(bs[0]) + QuoteBytes(bs[1..])
  {
  }

  lemma UnescapeQuoted(b: Byte, rest: seq<Code>)
    requires IsAscii(rest)
    ensures IsAscii(QuoteByte(b) + rest) && Unescape(QuoteByte(b) + rest) == [b] + Unescape(rest)
  {
    var s := QuoteByte(b) + rest;
    if Unreserved(b) {
      assert s[0] == b && s[1..] == rest;
    } else {
      assert s[0] == SIGN && s[1] == HexOut(b / 16) && s[2] == HexOut(b % 16) && s[3..] == rest;
    }
  }

  lemma {:induction false} UnquotesBack(bs: seq<Byte>)
    ensures IsAscii(QuoteBytes(bs)) && Unescape(QuoteBytes(bs)) == bs
  {
    if bs != [] {
      UnquotesBack(bs[1..]);
      QuotedCons(bs);
      hide QuoteBytes, QuoteByte, Unescape;
      UnescapeQuoted(bs[0], QuoteBytes(bs[1..]));
      assert [bs[0]] + bs[1..] == bs;
    }
  }

  /** One key is spelt one way and no other key is spelt so; the empty key has a
      spelling no other could forge; and none holds the separator. */
  lemma KeysApart(a: seq<Code>, b: seq<Code>)
    requires Clean(a) && Clean(b)
    ensures EncodedKey(a) == EncodedKey(b) <==> a == b
    ensures EncodedKey(a) != [] && COMMA !in EncodedKey(a)
  {
    QuotedPlain(Encode(a));
    QuotedPlain(Encode(b));
    EncodeEmpty(a);
    EncodeEmpty(b);
    assert !Plain(EMPTY_KEY[0]);
    hide QuoteBytes, Encode, Unescape;
    if a != [] && b != [] && EncodedKey(a) == EncodedKey(b) {
      UnquotesBack(Encode(a));
      UnquotesBack(Encode(b));
      RoundTrip(a);
      RoundTrip(b);
    }
  }

  lemma EncodeEmpty(s: seq<Code>)
    requires Clean(s)
    ensures Encode(s) == [] <==> s == []
  {
  }

  // ---- the set as a string ----

  function Spell(keys: seq<seq<Code>>): (r: seq<seq<Code>>)
    requires forall i :: 0 <= i < |keys| ==> Clean(keys[i])
    ensures |r| == |keys| && forall i :: 0 <= i < |r| ==> r[i] == EncodedKey(keys[i])
  {
    seq(|keys|, i requires 0 <= i < |keys| => EncodedKey(keys[i]))
  }

  /** `",".join(...)`, which of nothing is "". */
  function Render(keys: seq<seq<Code>>): seq<Code>
    requires forall i :: 0 <= i < |keys| ==> Clean(keys[i])
  {
    if keys == [] then [] else Text.Join(Spell(keys), COMMA)
  }

  lemma RenderSplits(keys: seq<seq<Code>>)
    requires keys != [] && forall i :: 0 <= i < |keys| ==> Clean(keys[i])
    ensures Text.Split(Render(keys), COMMA) == Spell(keys) && Render(keys) != []
  {
    forall i | 0 <= i < |keys| ensures COMMA !in Spell(keys)[i] {
      KeysApart(keys[i], keys[i]);
    }
    Text.SplitJoin(Spell(keys), COMMA);
    KeysApart(keys[0], keys[0]);
    assert Text.Split<Code>([], COMMA) == [[]] && Spell(keys)[0] != [];
  }

  /** A listing is read back from its string, none of it and the empty key apart. */
  lemma RenderInjective(a: seq<seq<Code>>, b: seq<seq<Code>>)
    requires (forall i :: 0 <= i < |a| ==> Clean(a[i])) && forall i :: 0 <= i < |b| ==> Clean(b[i])
    ensures Render(a) == Render(b) <==> a == b
  {
    if Render(a) == Render(b) {
      if a != [] { RenderSplits(a); }
      if b != [] { RenderSplits(b); }
      if a != [] && b != [] {
        assert |a| == |b|;
        forall i | 0 <= i < |a| ensures a[i] == b[i] {
          assert Spell(a)[i] == Spell(b)[i];
          KeysApart(a[i], b[i]);
        }
      }
    }
  }

  // ---- sorting ----

  predicate Before(a: seq<Code>, b: seq<Code>) {
    b != [] && (a == [] || a[0] < b[0] || (a[0] == b[0] && Before(a[1..], b[1..])))
  }

  lemma {:induction false} BeforeOrders(a: seq<Code>, b: seq<Code>, c: seq<Code>)
    ensures !Before(a, a)
    ensures Before(a, b) && Before(b, c) ==> Before(a, c)
  {
    if a != [] {
      BeforeOrders(a[1..], if b == [] then [] else b[1..], if c == [] then [] else c[1..]);
    }
  }

  /** `sorted` of a set: strictly ascending, and exactly its members. */
  ghost predicate SortedListing(keys: seq<seq<Code>>, of: set<seq<Code>>) {
    && (forall i, j :: 0 <= i < j < |keys| ==> Before(keys[i], keys[j]))
    && (forall k :: k in keys <==> k in of)
  }

  lemma FirstIsLeast(keys: seq<seq<Code>>, of: set<seq<Code>>, k: seq<Code>)
    requires SortedListing(keys, of) && keys != [] && k in of
    ensures k == keys[0] || Before(keys[0], k)
  {
    assert k in keys;
  }

  lemma SortedTail(keys: seq<seq<Code>>, of: set<seq<Code>>)
    requires SortedListing(keys, of) && keys != []
    ensures SortedListing(keys[1..], of - {keys[0]})
  {
    var rest := keys[1..];
    forall i, j | 0 <= i < j < |rest| ensures Before(rest[i], rest[j]) {
      assert Before(keys[i + 1], keys[j + 1]);
    }
    forall k ensures k in rest <==> k in of - {keys[0]} {
      assert keys == [keys[0]] + rest;
      if k in rest {
        var i :| 0 <= i < |rest| && rest[i] == k;
        assert Before(keys[0], keys[i + 1]);
        BeforeOrders(keys[0], k, k);
      }
    }
  }

  lemma {:induction false} SortedOnce(a: seq<seq<Code>>, b: seq<seq<Code>>, of: set<seq<Code>>)
    requires SortedListing(a, of) && SortedListing(b, of)
    ensures a == b
    decreases |a|
  {
    assert (a == [] || a[0] in a) && (b == [] || b[0] in b);
    if a != [] && b != [] {
      assert a[0] in of && b[0] in of;
      FirstIsLeast(a, of, b[0]);
      FirstIsLeast(b, of, a[0]);
      BeforeOrders(a[0], b[0], a[0]);
      SortedTail(a, of);
      SortedTail(b, of);
      SortedOnce(a[1..], b[1..], of - {a[0]});
      assert a == [a[0]] + a[1..] && b == [b[0]] + b[1..];
    }
  }

  lemma {:induction false} BeforeTotal(a: seq<Code>, b: seq<Code>)
    ensures a == b || Before(a, b) || Before(b, a)
  {
    if a != [] && b != [] && a[0] == b[0] {
      BeforeTotal(a[1..], b[1..]);
      assert a == [a[0]] + a[1..] && b == [b[0]] + b[1..];
    }
  }

  function Insert(k: seq<Code>, keys: seq<seq<Code>>): seq<seq<Code>> {
    if keys == [] || Before(k, keys[0]) then [k] + keys
    else if k == keys[0] then keys
    else [keys[0]] + Insert(k, keys[1..])
  }

  lemma {:induction false} InsertSorts(k: seq<Code>, keys: seq<seq<Code>>, of: set<seq<Code>>)
    requires SortedListing(keys, of)
    ensures SortedListing(Insert(k, keys), of + {k})
  {
    if keys == [] {
      assert of == {};
    } else if Before(k, keys[0]) {
      SortedCons(k, keys, of);
    } else if k != keys[0] {
      BeforeTotal(k, keys[0]);
      SortedTail(keys, of);
      InsertSorts(k, keys[1..], of - {keys[0]});
      assert keys[0] in of;
      hide Before;
      forall x | x in of - {keys[0]} + {k} ensures Before(keys[0], x) {
        if x != k {
          FirstIsLeast(keys, of, x);
        }
      }
      SortedBefore(keys[0], Insert(k, keys[1..]), of - {keys[0]} + {k});
      assert of - {keys[0]} + {k} + {keys[0]} == of + {k};
    } else {
      assert keys[0] in of && of + {k} == of;
    }
  }

  lemma SortedCons(k: seq<Code>, keys: seq<seq<Code>>, of: set<seq<Code>>)
    requires SortedListing(keys, of) && keys != [] && Before(k, keys[0])
    ensures SortedListing([k] + keys, of + {k})
  {
    hide Before;
    forall x | x in of ensures Before(k, x) {
      FirstIsLeast(keys, of, x);
      BeforeOrders(k, keys[0], x);
    }
    SortedBefore(k, keys, of);
  }

  lemma SortedBefore(k: seq<Code>, keys: seq<seq<Code>>, of: set<seq<Code>>)
    requires SortedListing(keys, of) && forall x :: x in of ==> Before(k, x)
    ensures SortedListing([k] + keys, of + {k})
  {
    hide Before;
    var all := [k] + keys;
    forall i, j | 0 <= i < j < |all| ensures Before(all[i], all[j]) {
      assert all[j] == keys[j - 1] && keys[j - 1] in keys;
      if i > 0 {
        assert all[i] == keys[i - 1];
      }
    }
    forall x ensures x in all <==> x in of + {k} {
      assert x in all <==> x == k || x in keys;
    }
  }

  /** Two listings are written alike exactly when they are of one set. */
  lemma ListingsInjective(a: seq<seq<Code>>, s: set<seq<Code>>, b: seq<seq<Code>>, t: set<seq<Code>>)
    requires SortedListing(a, s) && SortedListing(b, t)
    requires (forall i :: 0 <= i < |a| ==> Clean(a[i])) && forall i :: 0 <= i < |b| ==> Clean(b[i])
    ensures Render(a) == Render(b) <==> s == t
  {
    hide Render, Before;
    RenderInjective(a, b);
    if s == t {
      SortedOnce(a, b, s);
    }
    if a == b {
      assert forall k :: k in s <==> k in t;
    }
  }

  // ---- the text of a query ----

  const AMPERSAND: Code := 38
  const EQUALS: Code := 61
  const PLUS: Code := 43
  const SPACE: Code := 32
  const REPLACEMENT: Code := 0xFFFD

  /** How many bytes one U+FFFD stands for where no code point can be read: the
      longest beginning of one, or a single byte. */
  function Broken(b: seq<Byte>): (n: nat)
    requires b != []
    ensures 1 <= n <= |b|
  {
    if |b| < 2 then 1
    else
      var low := if b[0] == 0xE0 then 0xA0 else if b[0] == 0xF0 then 0x90 else 0x80;
      var high := if b[0] == 0xED then 0xA0 else if b[0] == 0xF4 then 0x90 else 0xC0;
      if !(0xE0 <= b[0] < 0xF5) || !(low <= b[1] < high) then 1
      else if b[0] < 0xF0 || |b| < 3 || !(0x80 <= b[2] < 0xC0) then 2
      else 3
  }

  /** `bytes.decode("utf-8", "replace")`. */
  function Replacing(b: seq<Byte>): seq<Code>
    decreases |b|
  {
    if b == [] then []
    else
      var one := DecodeOne(b);
      if one.Some? then [one.value.0] + Replacing(b[one.value.1..]) else [REPLACEMENT] + Replacing(b[Broken(b)..])
  }

  /** `urllib.parse.unquote`, run of ASCII by run of ASCII. */
  function Unquote(s: seq<Code>): seq<Code>
    decreases |s|
  {
    if s == [] then []
    else
      var n := AsciiRun(s);
      if n == 0 then [s[0]] + Unquote(s[1..]) else Replacing(Unescape(s[..n])) + Unquote(s[n..])
  }

  function Spaced(s: seq<Code>): (r: seq<Code>)
    ensures |r| == |s| && forall i :: 0 <= i < |s| ==> r[i] == if s[i] == PLUS then SPACE else s[i]
  {
    seq(|s|, i requires 0 <= i < |s| => if s[i] == PLUS then SPACE else s[i])
  }

  /** The key of `key=value`, or of a piece with no `=` in it. */
  function KeyIn(piece: seq<Code>): seq<Code> {
    Unquote(Spaced(piece[..Text.Find(piece, EQUALS)]))
  }

  /** The keys `parse_qsl` finds; a piece with nothing in it is none. */
  function KeysOf(query: seq<Code>): set<seq<Code>> {
    set p | p in Text.Split(query, AMPERSAND) && p != [] :: KeyIn(p)
  }

  /** `sorted` of the set of them. */
  function Listing(pieces: seq<seq<Code>>): seq<seq<Code>> {
    if pieces == [] then []
    else
      var before, last := Listing(pieces[..|pieces| - 1]), pieces[|pieces| - 1];
      if last == [] then before else Insert(KeyIn(last), before)
  }

  /** None where `quote` raises: a key with an unpaired surrogate. */
  function QueryKeySet(query: seq<Code>): Option<seq<Code>> {
    var keys := Listing(Text.Split(query, AMPERSAND));
    if forall i :: 0 <= i < |keys| ==> Clean(keys[i]) then Some(Render(keys)) else None
  }

  lemma {:induction false} ListingSorts(pieces: seq<seq<Code>>)
    ensures SortedListing(Listing(pieces), set p | p in pieces && p != [] :: KeyIn(p))
  {
    hide KeyIn, Insert, Before;
    if pieces != [] {
      var n := |pieces| - 1;
      var before, last := pieces[..n], pieces[n];
      ListingSorts(before);
      var was, now := set p | p in before && p != [] :: KeyIn(p), set p | p in pieces && p != [] :: KeyIn(p);
      assert pieces == before + [last];
      if last == [] {
        assert was == now;
      } else {
        InsertSorts(KeyIn(last), Listing(before), was);
        assert was + {KeyIn(last)} == now;
      }
    }
  }

  /** Two queries are written alike exactly when they carry the same set of keys,
      values, order and repetition aside; and one is written at all exactly when each
      of its keys can be encoded. */
  lemma QueryKeySetInjective(a: seq<Code>, b: seq<Code>)
    ensures QueryKeySet(a).Some? <==> forall k <- KeysOf(a) :: Clean(k)
    ensures QueryKeySet(a).Some? && QueryKeySet(b).Some? ==>
      (QueryKeySet(a) == QueryKeySet(b) <==> KeysOf(a) == KeysOf(b))
  {
    hide KeyIn, Listing, Render, Before, Text.Split;
    var keysA, keysB := Listing(Text.Split(a, AMPERSAND)), Listing(Text.Split(b, AMPERSAND));
    ListingSorts(Text.Split(a, AMPERSAND));
    ListingSorts(Text.Split(b, AMPERSAND));
    assert forall k :: k in keysA <==> k in KeysOf(a);
    if QueryKeySet(a).Some? && QueryKeySet(b).Some? {
      ListingsInjective(keysA, KeysOf(a), keysB, KeysOf(b));
    }
    if forall k <- KeysOf(a) :: Clean(k) {
      forall i | 0 <= i < |keysA| ensures Clean(keysA[i]) {
        assert keysA[i] in keysA;
      }
    }
  }

  /** No query at all and a query of the empty key alone. */
  lemma NoQueryIsNoKey()
    ensures QueryKeySet([]) == Some([]) && QueryKeySet([EQUALS, 49]) == Some(EMPTY_KEY)
  {
    var none: seq<Code>, one: seq<Code> := [], [EQUALS, 49];
    Text.SplitNone(none, AMPERSAND);
    Text.SplitNone(one, AMPERSAND);
    assert [none][..0] == [] && [one][..0] == [] && one[..0] == none;
    assert KeyIn(one) == [] && Insert(none, []) == [none];
    assert Listing([none]) == [] && Listing([one]) == [none];
    assert Spell([none]) == [EMPTY_KEY];
  }

  // ---- what decoding a key gives ----

  /** Some code point's encoding begins with these bytes. */
  ghost predicate Begins(p: seq<Byte>) {
    exists c: Code :: BeginsOne(p, c)
  }

  predicate BeginsOne(p: seq<Byte>, c: Code) {
    !Surrogate(c) && p <= EncodeOne(c)
  }

  lemma DecodesWhole(b: seq<Byte>)
    requires |b| >= 3 && 0xE0 <= b[0] < 0xF5 && |b| == (if b[0] < 0xF0 then 3 else 4)
    requires forall i :: 1 <= i < |b| ==> 0x80 <= b[i] < 0xC0
    requires b[0] == 0xE0 ==> b[1] >= 0xA0
    requires b[0] == 0xED ==> b[1] < 0xA0
    requires b[0] == 0xF0 ==> b[1] >= 0x90
    requires b[0] == 0xF4 ==> b[1] < 0x90
    ensures DecodeOne(b).Some? && DecodeOne(b).value.1 == |b|
  {
  }

  lemma WholeDecodes(b: seq<Byte>, c: Code)
    requires b != [] && !Surrogate(c)
    ensures EncodeOne(c) <= b ==> DecodeOne(b).Some?
  {
    hide EncodeOne, DecodeOne;
    if EncodeOne(c) <= b {
      assert b == EncodeOne(c) + b[|EncodeOne(c)|..];
      OneRoundTrip(c, b[|EncodeOne(c)|..]);
    }
  }

  lemma SamePrefix(p: seq<Byte>, one: seq<Byte>, b: seq<Byte>)
    requires p <= b
    ensures p <= one && |one| == |p| ==> one <= b
    ensures p <= one ==> forall i :: 0 <= i < |p| ==> b[i] == p[i] == one[i]
  {
  }

  lemma BrokenBegins(b: seq<Byte>)
    requires b != [] && Broken(b) > 1
    ensures Begins(b[..Broken(b)])
  {
    var n := Broken(b);
    var whole := b[..n] + if b[0] < 0xF0 || n == 3 then [0x80] else [0x80, 0x80];
    assert whole[0] == b[0] && whole[1] == b[1] && (n == 3 ==> whole[2] == b[2]);
    DecodesWhole(whole);
    OneReadBack(whole);
    hide EncodeOne, DecodeOne;
    assert BeginsOne(b[..n], DecodeOne(whole).value.0);
  }

  lemma BrokenEnds(b: seq<Byte>, c: Code)
    requires b != [] && DecodeOne(b).None? && Broken(b) < |b| && !Surrogate(c)
    ensures !(b[..Broken(b) + 1] <= EncodeOne(c))
  {
    var n, one := Broken(b), EncodeOne(c);
    WholeDecodes(b, c);
    SamePrefix(b[..n + 1], one, b);
  }

  /** One U+FFFD stands for as long a beginning of a code point as there is, and for a
      single byte where there is none. */
  lemma BrokenIsLongest(b: seq<Byte>)
    requires b != [] && DecodeOne(b).None?
    ensures Broken(b) == 1 || Begins(b[..Broken(b)])
    ensures Broken(b) < |b| ==> !Begins(b[..Broken(b) + 1])
  {
    hide Broken, DecodeOne;
    if Broken(b) > 1 {
      BrokenBegins(b);
    }
    if Broken(b) < |b| {
      forall c: Code | !Surrogate(c) ensures !BeginsOne(b[..Broken(b) + 1], c) {
        BrokenEnds(b, c);
      }
    }
  }

  lemma {:induction false} ReplacingStrict(b: seq<Byte>)
    ensures Clean(Replacing(b))
    ensures Decode(b).Some? ==> Replacing(b) == Decode(b).value
    decreases |b|
  {
    if b != [] {
      var one := DecodeOne(b);
      hide DecodeOne;
      if one.Some? {
        OneReadBack(b);
        ReplacingStrict(b[one.value.1..]);
        CleanConcat([one.value.0], Replacing(b[one.value.1..]));
      } else {
        ReplacingStrict(b[Broken(b)..]);
        CleanConcat([REPLACEMENT], Replacing(b[Broken(b)..]));
      }
    }
  }

  /** A key of a text that can be encoded can be; and where every run of it is UTF-8
      it is what strict decoding reads. */
  lemma {:induction false} UnquoteReads(s: seq<Code>)
    ensures Clean(s) ==> Clean(Unquote(s))
    ensures DecodeParts(s).Some? ==> Unquote(s) == DecodeParts(s).value
    decreases |s|
  {
    if s != [] {
      var n := AsciiRun(s);
      assert s == s[..n] + s[n..] && s == [s[0]] + s[1..];
      if n == 0 {
        UnquoteReads(s[1..]);
        CleanConcat([s[0]], s[1..]);
        CleanConcat([s[0]], Unquote(s[1..]));
      } else {
        UnquoteReads(s[n..]);
        ReplacingStrict(Unescape(s[..n]));
        CleanConcat(s[..n], s[n..]);
        CleanConcat(Replacing(Unescape(s[..n])), Unquote(s[n..]));
      }
    }
  }

  /** The query of a url that can be encoded is always written. */
  lemma CleanQueryWritten(query: seq<Code>)
    requires Clean(query)
    ensures QueryKeySet(query).Some?
  {
    hide QueryKeySet, Unquote, Text.Split;
    QueryKeySetInjective(query, query);
    forall k | k in KeysOf(query) ensures Clean(k) {
      var p :| p in Text.Split(query, AMPERSAND) && p != [] && k == KeyIn(p);
      Text.SplitWithin(query, AMPERSAND, p);
      var name := p[..Text.Find(p, EQUALS)];
      forall i | 0 <= i < |name| ensures !Surrogate(Spaced(name)[i]) {
        assert p[i] in p;
      }
      UnquoteReads(Spaced(name));
    }
  }
}
