/** Flat JSON objects as `json.dumps(..., separators=(",", ":"), ensure_ascii=False)`
    writes them and `json.loads` reads them: strings of RFC 8259 section 7,
    integers, booleans and null. What is nested, or a float, is refused here where
    the reader's caller refuses it. */
module Json {
  import opened Options
  import opened Utf8
  import opened Chars

  datatype Value = Str(s: seq<Code>) | Num(n: int) | Bool(b: bool) | Null

  /** A dict, in insertion order. */
  type Header = seq<(seq<Code>, Value)>

  function Ch(c: char): Code
    requires c < 128 as char
  {
    c as int
  }

  const QUOTE: Code := 34
  const BACKSLASH: Code := 92

  predicate Has(h: Header, key: seq<Code>) {
    exists i :: 0 <= i < |h| && h[i].0 == key
  }

  predicate Distinct(h: Header) {
    forall i, j :: 0 <= i < j < |h| ==> h[i].0 != h[j].0
  }

  function Get(h: Header, key: seq<Code>): Option<Value> {
    if h == [] then None else if h[0].0 == key then Some(h[0].1) else Get(h[1..], key)
  }

  /** `h[key] = value`. */
  function Put(h: Header, key: seq<Code>, value: Value): Header {
    if h == [] then [(key, value)]
    else if h[0].0 == key then [(key, value)] + h[1..]
    else [h[0]] + Put(h[1..], key, value)
  }

  lemma {:induction false} PutNew(h: Header, key: seq<Code>, value: Value)
    requires !Has(h, key)
    ensures Put(h, key, value) == h + [(key, value)]
  {
    if h != [] {
      forall i | 0 <= i < |h[1..]| ensures h[1..][i].0 != key { assert h[i + 1].0 != key; }
      PutNew(h[1..], key, value);
    }
  }

  lemma {:induction false} PutGet(h: Header, key: seq<Code>, value: Value, other: seq<Code>)
    ensures Get(Put(h, key, value), other) == if other == key then Some(value) else Get(h, other)
  {
    if h != [] {
      PutGet(h[1..], key, value, other);
    }
  }

  // ---- strings ----

  function HexDigit(n: int): Code
    requires 0 <= n < 16
  {
    if n < 10 then 48 + n else 87 + n
  }

  function EscapeOne(c: Code): seq<Code> {
    if c == QUOTE || c == BACKSLASH then [BACKSLASH, c]
    else if c == 8 then [BACKSLASH, Ch('b')]
    else if c == 9 then [BACKSLASH, Ch('t')]
    else if c == 10 then [BACKSLASH, Ch('n')]
    else if c == 12 then [BACKSLASH, Ch('f')]
    else if c == 13 then [BACKSLASH, Ch('r')]
    else if c < 32 then [BACKSLASH, Ch('u'), 48, 48, HexDigit(c / 16), HexDigit(c % 16)]
    else [c]
  }

  function EscapeAll(s: seq<Code>): seq<Code> {
    if s == [] then [] else EscapeOne(s[0]) + EscapeAll(s[1..])
  }

  function PrintStr(s: seq<Code>): seq<Code> {
    [QUOTE] + EscapeAll(s) + [QUOTE]
  }

  function Hex4(s: seq<Code>): (r: Option<int>)
    ensures r.Some? ==> |s| >= 4 && 0 <= r.value < 0x1_0000
  {
    if |s| < 4 then None
    else
      var a, b, c, d := HexValue(s[0]), HexValue(s[1]), HexValue(s[2]), HexValue(s[3]);
      if a.None? || b.None? || c.None? || d.None? then None
      else Some(a.value * 4096 + b.value * 256 + c.value * 16 + d.value)
  }

  /** A `\u` escape: a high surrogate joins the escaped low one right behind it,
      and one alone is read as it is. */
  function ReadUnicode(s: seq<Code>): (r: Option<(int, seq<Code>)>)
    ensures r.Some? ==> |r.value.1| < |s| && 0 <= r.value.0 < 0x11_0000
  {
    var high := Hex4(s);
    if high.None? then None
    else
      var rest := s[4..];
      var low := if |rest| >= 2 && rest[0] == BACKSLASH && rest[1] == Ch('u') then Hex4(rest[2..]) else None;
      if 0xD800 <= high.value <= 0xDBFF && low.Some? && 0xDC00 <= low.value <= 0xDFFF then
        Some((0x1_0000 + (high.value - 0xD800) * 1024 + (low.value - 0xDC00), rest[6..]))
      else Some((high.value, rest))
  }

  /** What follows a backslash. */
  function ReadEscape(s: seq<Code>): (r: Option<(int, seq<Code>)>)
    ensures r.Some? ==> |r.value.1| < |s| && 0 <= r.value.0 < 0x11_0000
  {
    if s == [] then None
    else if s[0] == QUOTE || s[0] == BACKSLASH || s[0] == Ch('/') then Some((s[0], s[1..]))
    else if s[0] == Ch('b') then Some((8, s[1..]))
    else if s[0] == Ch('t') then Some((9, s[1..]))
    else if s[0] == Ch('n') then Some((10, s[1..]))
    else if s[0] == Ch('f') then Some((12, s[1..]))
    else if s[0] == Ch('r') then Some((13, s[1..]))
    else if s[0] == Ch('u') then ReadUnicode(s[1..])
    else None
  }

  /** One character of a string, or None at its end or at what may not be in one. */
  function ReadChar(s: seq<Code>): (r: Option<(int, seq<Code>)>)
    requires s != []
    ensures r.Some? ==> |r.value.1| < |s| && 0 <= r.value.0 < 0x11_0000
  {
    if s[0] == QUOTE || s[0] < 32 then None
    else if s[0] == BACKSLASH then ReadEscape(s[1..])
    else Some((s[0], s[1..]))
  }

  /** A string, its opening quote already read, and what follows its close. */
  function ReadStr(s: seq<Code>): (r: Option<(seq<Code>, seq<Code>)>)
    ensures r.Some? ==> |r.value.1| < |s|
    decreases |s|
  {
    if s == [] then None
    else if s[0] == QUOTE then Some(([], s[1..]))
    else
      var c := ReadChar(s);
      if c.None? then None
      else
        var r := ReadStr(c.value.1);
        if r.None? then None else Some(([c.value.0] + r.value.0, r.value.1))
  }

  lemma ReadEscaped(c: Code, rest: seq<Code>)
    ensures ReadChar(EscapeOne(c) + rest) == Some((c, rest))
    ensures EscapeOne(c)[0] != QUOTE
  {
    var s := EscapeOne(c) + rest;
    assert s[0] == EscapeOne(c)[0];
    if c < 32 && c !in {8, 9, 10, 12, 13} {
      assert s[1..][1..][..4] == [48, 48, HexDigit(c / 16), HexDigit(c % 16)];
      assert s[1..][1..][4..] == rest;
      assert Hex4(s[1..][1..]) == Some(c);
    } else if s[0] == BACKSLASH {
      assert s[1..][1..] == rest;
    } else {
      assert s[1..] == rest;
    }
  }

  lemma ReadStrStep(c: Code, tail: seq<Code>)
    requires ReadStr(tail).Some?
    ensures ReadStr(EscapeOne(c) + tail) == Some(([c] + ReadStr(tail).value.0, ReadStr(tail).value.1))
  {
    ReadEscaped(c, tail);
    EscapeNonempty(c);
    hide EscapeOne, ReadChar;
    var s := EscapeOne(c) + tail;
    assert s[0] == EscapeOne(c)[0];
  }

  lemma EscapedCons(s: seq<Code>, rest: seq<Code>)
    requires s != []
    ensures EscapeAll(s) + [QUOTE] + rest == EscapeOne(s[0]) + (EscapeAll(s[1..]) + [QUOTE] + rest)
  {
  }

  lemma {:induction false} ReadPrinted(s: seq<Code>, rest: seq<Code>)
    ensures ReadStr(EscapeAll(s) + [QUOTE] + rest) == Some((s, rest))
  {
    if s == [] {
      assert EscapeAll(s) + [QUOTE] + rest == [QUOTE] + rest;
      assert ([QUOTE] + rest)[1..] == rest;
    } else {
      hide EscapeOne, EscapeAll, ReadChar, ReadStr;
      ReadPrinted(s[1..], rest);
      ReadStrStep(s[0], EscapeAll(s[1..]) + [QUOTE] + rest);
      EscapedCons(s, rest);
      assert [s[0]] + s[1..] == s;
    }
  }

  lemma EscapeNonempty(c: Code)
    ensures EscapeOne(c) != []
  {
  }

  // ---- numbers ----

  function Decimal(n: nat): (r: seq<Code>)
    ensures r != [] && (forall i :: 0 <= i < |r| ==> IsDigit(r[i])) && (r[0] == 48 ==> n == 0 && r == [48])
  {
    if n < 10 then [48 + n] else Decimal(n / 10) + [48 + n % 10]
  }

  function Digits(s: seq<Code>): (n: nat)
    ensures n <= |s| && forall i :: 0 <= i < n ==> IsDigit(s[i])
  {
    if s == [] || !IsDigit(s[0]) then 0 else 1 + Digits(s[1..])
  }

  function NatOf(ds: seq<Code>): nat
    requires forall i :: 0 <= i < |ds| ==> IsDigit(ds[i])
  {
    if ds == [] then 0
    else
      assert IsDigit(ds[|ds| - 1]);
      NatOf(ds[..|ds| - 1]) * 10 + (ds[|ds| - 1] as int - 48)
  }

  lemma {:induction false} NatOfDecimal(n: nat)
    ensures NatOf(Decimal(n)) == n
  {
    if n >= 10 {
      NatOfDecimal(n / 10);
      assert Decimal(n)[..|Decimal(n)| - 1] == Decimal(n / 10);
    }
  }

  lemma {:induction false} DigitsOf(ds: seq<Code>, rest: seq<Code>)
    requires forall i :: 0 <= i < |ds| ==> IsDigit(ds[i])
    requires rest == [] || !IsDigit(rest[0])
    ensures Digits(ds + rest) == |ds|
  {
    if ds == [] {
      assert ds + rest == rest;
    } else {
      DigitsOf(ds[1..], rest);
      assert (ds + rest)[1..] == ds[1..] + rest;
    }
  }

  /** `0`, or digits that do not start with one. */
  function ReadNat(s: seq<Code>): (r: Option<(nat, seq<Code>)>)
    ensures r.Some? ==> |r.value.1| < |s|
  {
    var n := if s != [] && s[0] == 48 then 1 else Digits(s);
    if n == 0 then None
    else
      assert forall i :: 0 <= i < n ==> IsDigit(s[i]);
      Some((NatOf(s[..n]), s[n..]))
  }

  lemma ReadDecimal(n: nat, rest: seq<Code>)
    requires rest == [] || !IsDigit(rest[0])
    ensures ReadNat(Decimal(n) + rest) == Some((n, rest))
  {
    var ds := Decimal(n);
    DigitsOf(ds, rest);
    NatOfDecimal(n);
    assert (ds + rest)[0] == ds[0] && (ds + rest)[..|ds|] == ds && (ds + rest)[|ds|..] == rest;
  }

  // ---- values and objects ----

  const TRUE := [116, 114, 117, 101]
  const FALSE := [102, 97, 108, 115, 101]
  const NIL := [110, 117, 108, 108]

  function PrintValue(v: Value): seq<Code> {
    match v
    case Str(s) => PrintStr(s)
    case Num(n) => if n < 0 then [45] + Decimal(-n) else Decimal(n)
    case Bool(b) => if b then TRUE else FALSE
    case Null => NIL
  }

  function ReadValue(s: seq<Code>): (r: Option<(Value, seq<Code>)>)
    ensures r.Some? ==> |r.value.1| < |s|
  {
    if s == [] then None
    else if s[0] == QUOTE then
      var r := ReadStr(s[1..]);
      if r.None? then None else Some((Str(r.value.0), r.value.1))
    else if s[0] == 45 then
      var r := ReadNat(s[1..]);
      if r.None? then None else Some((Num(-(r.value.0 as int)), r.value.1))
    else if IsDigit(s[0]) then
      var r := ReadNat(s);
      if r.None? then None else Some((Num(r.value.0), r.value.1))
    else if TRUE <= s then Some((Bool(true), s[4..]))
    else if FALSE <= s then Some((Bool(false), s[5..]))
    else if NIL <= s then Some((Null, s[4..]))
    else None
  }

  lemma ReadPrintedNum(n: int, rest: seq<Code>)
    requires rest != [] && !IsDigit(rest[0])
    ensures ReadValue(PrintValue(Num(n)) + rest) == Some((Num(n), rest))
  {
    hide ReadNat, Digits;
    var s := PrintValue(Num(n)) + rest;
    if n < 0 {
      assert s[0] == 45 && s[1..] == Decimal(-n) + rest;
      ReadDecimal(-n, rest);
    } else {
      assert s[0] == Decimal(n)[0];
      ReadDecimal(n, rest);
    }
  }

  lemma ReadPrintedWord(v: Value, rest: seq<Code>)
    requires v.Bool? || v.Null?
    ensures ReadValue(PrintValue(v) + rest) == Some((v, rest))
  {
    hide ReadNat, ReadStr;
    var w := PrintValue(v);
    var s := w + rest;
    assert s[0] == w[0] && s[..|w|] == w && s[|w|..] == rest;
  }

  lemma ReadPrintedValue(v: Value, rest: seq<Code>)
    requires rest != [] && !IsDigit(rest[0])
    ensures ReadValue(PrintValue(v) + rest) == Some((v, rest))
  {
    match v {
      case Str(t) =>
        hide ReadStr, EscapeAll;
        var s := PrintValue(v) + rest;
        assert s[0] == QUOTE && s[1..] == EscapeAll(t) + [QUOTE] + rest;
        ReadPrinted(t, rest);
      case Num(n) => ReadPrintedNum(n, rest);
      case Bool(_) => ReadPrintedWord(v, rest);
      case Null => ReadPrintedWord(v, rest);
    }
  }

  function SkipSpace(s: seq<Code>): (r: seq<Code>)
    ensures |r| <= |s|
  {
    if s != [] && s[0] in {32, 9, 10, 13} then SkipSpace(s[1..]) else s
  }

  function PrintMember(m: (seq<Code>, Value)): seq<Code> {
    PrintStr(m.0) + [58] + PrintValue(m.1)
  }

  /** Members with a comma between. */
  function PrintMembers(h: Header): seq<Code>
    requires h != []
  {
    if |h| == 1 then PrintMember(h[0]) else PrintMember(h[0]) + [44] + PrintMembers(h[1..])
  }

  function Print(h: Header): seq<Code> {
    [123] + (if h == [] then [] else PrintMembers(h)) + [125]
  }

  /** `"key" : value`, and what is left behind the space after it. */
  function ReadMember(s: seq<Code>): (r: Option<(seq<Code>, Value, seq<Code>)>)
    ensures r.Some? ==> |r.value.2| < |s|
  {
    if s == [] || s[0] != QUOTE then None
    else
      var key := ReadStr(s[1..]);
      if key.None? then None
      else
        var colon := SkipSpace(key.value.1);
        if colon == [] || colon[0] != 58 then None
        else
          var value := ReadValue(SkipSpace(colon[1..]));
          if value.None? then None
          else Some((key.value.0, value.value.0, SkipSpace(value.value.1)))
  }

  /** The members still to come, put one by one into `h`. */
  function ReadMembers(s: seq<Code>, h: Header): Option<(Header, seq<Code>)>
    decreases |s|
  {
    var m := ReadMember(s);
    if m.None? then None
    else
      var (key, value, rest) := m.value;
      var now := Put(h, key, value);
      if rest == [] then None
      else if rest[0] == 125 then Some((now, rest[1..]))
      else if rest[0] == 44 then ReadMembers(SkipSpace(rest[1..]), now)
      else None
  }

  /** `json.loads`, where it gives a flat dict. */
  function Loads(s: seq<Code>): Option<Header> {
    var open := SkipSpace(s);
    if open == [] || open[0] != 123 then None
    else
      var inner := SkipSpace(open[1..]);
      var r := if inner != [] && inner[0] == 125 then Some(([], inner[1..])) else ReadMembers(inner, []);
      if r.None? || SkipSpace(r.value.1) != [] then None else Some(r.value.0)
  }

  lemma ReadPrintedMember(m: (seq<Code>, Value), rest: seq<Code>)
    requires rest != [] && (rest[0] == 44 || rest[0] == 125)
    ensures ReadMember(PrintMember(m) + rest) == Some((m.0, m.1, rest))
  {
    hide ReadStr, EscapeAll, ReadValue, PrintValue;
    var s := PrintMember(m) + rest;
    var after := PrintValue(m.1) + rest;
    assert s[0] == QUOTE && s[1..] == EscapeAll(m.0) + [QUOTE] + ([58] + after);
    ReadPrinted(m.0, [58] + after);
    assert ([58] + after)[1..] == after;
    ReadPrintedValue(m.1, rest);
    NoSpace(m.1, rest);
  }

  lemma NoSpace(v: Value, rest: seq<Code>)
    ensures SkipSpace(PrintValue(v) + rest) == PrintValue(v) + rest
  {
    var s := PrintValue(v) + rest;
    assert s[0] == PrintValue(v)[0];
  }

  lemma {:induction false} ReadPrintedMembers(h: Header, before: Header, rest: seq<Code>)
    requires h != [] && Distinct(before + h)
    ensures ReadMembers(PrintMembers(h) + [125] + rest, before) == Some((before + h, rest))
  {
    hide PrintMember, ReadMember;
    var m := h[0];
    assert (before + h)[|before|] == m;
    forall i | 0 <= i < |before| ensures before[i].0 != m.0 { assert (before + h)[i] == before[i]; }
    PutNew(before, m.0, m.1);
    if |h| == 1 {
      var tail := [125] + rest;
      assert PrintMembers(h) + [125] + rest == PrintMember(m) + tail;
      ReadPrintedMember(m, tail);
      assert tail[1..] == rest && h == [m];
    } else {
      var next := PrintMembers(h[1..]) + [125] + rest;
      var tail := [44] + next;
      assert PrintMembers(h) + [125] + rest == PrintMember(m) + tail;
      ReadPrintedMember(m, tail);
      assert tail[1..] == next;
      MembersStart(h[1..]);
      assert next[0] == QUOTE && SkipSpace(next) == next;
      assert before + [m] + h[1..] == before + h;
      ReadPrintedMembers(h[1..], before + [m], rest);
    }
  }

  lemma MembersStart(h: Header)
    requires h != []
    ensures PrintMembers(h) != [] && PrintMembers(h)[0] == QUOTE
  {
  }

  /** What is printed reads back as itself. */
  lemma LoadsPrinted(h: Header)
    requires Distinct(h)
    ensures Loads(Print(h)) == Some(h)
  {
    hide PrintMembers, ReadMembers;
    var s := Print(h);
    if h == [] {
      assert s == [123, 125] && s[1..] == [125] && [125][1..] == [];
    } else {
      MembersStart(h);
      var inner := PrintMembers(h) + [125] + [];
      assert s[0] == 123 && s[1..] == inner && inner[0] == QUOTE;
      assert [] + h == h;
      ReadPrintedMembers(h, [], []);
    }
  }

  // ---- what printing never writes ----

  predicate Visible(s: seq<Code>) {
    forall i :: 0 <= i < |s| ==> s[i] >= 32
  }

  lemma {:induction false} EscapedVisible(s: seq<Code>)
    ensures Visible(EscapeAll(s))
  {
    if s != [] {
      EscapedVisible(s[1..]);
    }
  }

  lemma MemberVisible(m: (seq<Code>, Value))
    ensures Visible(PrintMember(m))
  {
    EscapedVisible(m.0);
    if m.1.Str? {
      EscapedVisible(m.1.s);
    }
  }

  lemma {:induction false} MembersVisible(h: Header)
    requires h != []
    ensures Visible(PrintMembers(h))
  {
    hide PrintMember;
    MemberVisible(h[0]);
    if |h| > 1 {
      MembersVisible(h[1..]);
    }
  }

  /** No control character, so no line feed, is ever printed. */
  lemma PrintedVisible(h: Header)
    ensures Visible(Print(h))
  {
    if h != [] {
      MembersVisible(h);
    }
  }

  /** Every string of the header, keys and values alike, can be encoded. */
  predicate Encodable(h: Header) {
    forall i :: 0 <= i < |h| ==> Clean(h[i].0) && (h[i].1.Str? ==> Clean(h[i].1.s))
  }

  lemma {:induction false} EscapedClean(s: seq<Code>)
    ensures Clean(EscapeAll(s)) <==> Clean(s)
  {
    if s != [] {
      EscapedClean(s[1..]);
      CleanConcat(EscapeOne(s[0]), EscapeAll(s[1..]));
      assert Clean(EscapeOne(s[0])) <==> !Surrogate(s[0]) by {
        if s[0] >= 32 && s[0] != QUOTE && s[0] != BACKSLASH { assert EscapeOne(s[0])[0] == s[0]; }
      }
      CleanConcat([s[0]], s[1..]);
      assert [s[0]] + s[1..] == s && ([s[0]][0] == s[0]);
    }
  }

  lemma ValueClean(v: Value)
    ensures Clean(PrintValue(v)) <==> (v.Str? ==> Clean(v.s))
  {
    if v.Str? {
      EscapedClean(v.s);
      CleanConcat([QUOTE] + EscapeAll(v.s), [QUOTE]);
      CleanConcat([QUOTE], EscapeAll(v.s));
    }
  }

  lemma MemberClean(m: (seq<Code>, Value))
    ensures Clean(PrintMember(m)) <==> Clean(m.0) && (m.1.Str? ==> Clean(m.1.s))
  {
    EscapedClean(m.0);
    CleanConcat([QUOTE] + EscapeAll(m.0), [QUOTE]);
    CleanConcat([QUOTE], EscapeAll(m.0));
    ValueClean(m.1);
    CleanConcat(PrintStr(m.0) + [58], PrintValue(m.1));
    CleanConcat(PrintStr(m.0), [58]);
  }

  lemma {:induction false} MembersClean(h: Header)
    requires h != []
    ensures Clean(PrintMembers(h)) <==> Encodable(h)
  {
    MemberClean(h[0]);
    if |h| > 1 {
      MembersClean(h[1..]);
      CleanConcat(PrintMember(h[0]) + [44], PrintMembers(h[1..]));
      CleanConcat(PrintMember(h[0]), [44]);
      assert h == [h[0]] + h[1..];
      if Encodable(h) {
        forall i | 0 <= i < |h[1..]|
          ensures Clean(h[1..][i].0) && (h[1..][i].1.Str? ==> Clean(h[1..][i].1.s)) { assert h[1..][i] == h[i + 1]; }
      }
    }
  }

  lemma PrintClean(h: Header)
    ensures Clean(Print(h)) <==> Encodable(h)
  {
    if h == [] {
      assert Print(h) == [123, 125];
    } else {
      MembersClean(h);
      CleanConcat([123] + PrintMembers(h), [125]);
      CleanConcat([123], PrintMembers(h));
    }
  }

  // ---- what reading always gives ----

  lemma {:induction false} PutDistinct(h: Header, key: seq<Code>, value: Value)
    requires Distinct(h)
    ensures Distinct(Put(h, key, value))
    ensures forall k :: Has(Put(h, key, value), k) <==> k == key || Has(h, k)
  {
    if h == [] {
      assert forall k :: Has([(key, value)], k) <==> k == key by {
        assert [(key, value)][0].0 == key;
      }
    } else {
      var rest := h[1..];
      assert Distinct(rest) by {
        forall i, j | 0 <= i < j < |rest| ensures rest[i].0 != rest[j].0 { assert h[i + 1].0 != h[j + 1].0; }
      }
      HasCons(h[0], rest);
      assert [h[0]] + rest == h;
      if h[0].0 == key {
        HasCons((key, value), rest);
      } else {
        PutDistinct(rest, key, value);
        HasCons(h[0], Put(rest, key, value));
        assert !Has(rest, h[0].0) by {
          forall i | 0 <= i < |rest| ensures rest[i].0 != h[0].0 { assert h[i + 1].0 != h[0].0; }
        }
        DistinctCons(h[0], Put(rest, key, value));
      }
    }
  }

  lemma HasCons(m: (seq<Code>, Value), rest: Header)
    ensures forall k :: Has([m] + rest, k) <==> k == m.0 || Has(rest, k)
  {
    var h := [m] + rest;
    assert h[0] == m;
    forall k | Has(rest, k) ensures Has(h, k) {
      var i :| 0 <= i < |rest| && rest[i].0 == k;
      assert h[i + 1].0 == k;
    }
  }

  lemma DistinctCons(m: (seq<Code>, Value), rest: Header)
    requires Distinct(rest) && !Has(rest, m.0)
    ensures Distinct([m] + rest)
  {
  }

  lemma {:induction false} ReadDistinct(s: seq<Code>, h: Header)
    requires Distinct(h) && ReadMembers(s, h).Some?
    ensures Distinct(ReadMembers(s, h).value.0)
    decreases |s|
  {
    hide ReadMember, Put, Distinct;
    var (key, value, rest) := ReadMember(s).value;
    PutDistinct(h, key, value);
    if rest[0] == 44 {
      ReadDistinct(SkipSpace(rest[1..]), Put(h, key, value));
    }
  }

  /** A parsed dict has each of its keys once. */
  lemma LoadsDistinct(s: seq<Code>)
    requires Loads(s).Some?
    ensures Distinct(Loads(s).value)
  {
    hide ReadMembers;
    var inner := SkipSpace(SkipSpace(s)[1..]);
    if inner == [] || inner[0] != 125 {
      ReadDistinct(inner, []);
    }
  }
}
