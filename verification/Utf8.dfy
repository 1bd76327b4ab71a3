/** Strict UTF-8, as RFC 3629 section 4 and Python's "utf-8" codec have it. */
module Utf8 {
  import opened Options

  type Byte = b: int | 0 <= b < 256
  type Code = c: int | 0 <= c < 0x110000

  predicate Surrogate(c: Code) {
    0xD800 <= c <= 0xDFFF
  }

  predicate Clean(s: seq<Code>) {
    forall i :: 0 <= i < |s| ==> !Surrogate(s[i])
  }

  function EncodeOne(c: Code): (b: seq<Byte>)
    requires !Surrogate(c)
    ensures 1 <= |b| <= 4
    ensures c < 0x80 ==> b == [c]
    ensures c >= 0x80 ==> forall i :: 0 <= i < |b| ==> b[i] >= 0x80
  {
    if c < 0x80 then [c]
    else if c < 0x800 then [0xC0 + c / 64, 0x80 + c % 64]
    else if c < 0x1_0000 then [0xE0 + c / 4096, 0x80 + c / 64 % 64, 0x80 + c % 64]
    else [0xF0 + c / 262144, 0x80 + c / 4096 % 64, 0x80 + c / 64 % 64, 0x80 + c % 64]
  }

  predicate Trails(b: seq<Byte>, n: nat) {
    n <= |b| && forall i :: 1 <= i < n ==> 0x80 <= b[i] < 0xC0
  }

  function Join2(a: int, b: int): int { (a - 0xC0) * 64 + (b - 0x80) }
  function Join3(a: int, b: int, c: int): int { (a - 0xE0) * 4096 + (b - 0x80) * 64 + (c - 0x80) }
  function Join4(a: int, b: int, c: int, d: int): int {
    (a - 0xF0) * 262144 + (b - 0x80) * 4096 + (c - 0x80) * 64 + (d - 0x80)
  }

  /** One code point off the front and the bytes it took: the shortest form only,
      no surrogate, nothing past U+10FFFF. */
  function DecodeOne(b: seq<Byte>): (r: Option<(int, nat)>)
    requires b != []
    ensures r.Some? ==> 1 <= r.value.1 <= |b| && 0 <= r.value.0 < 0x11_0000
  {
    if b[0] < 0x80 then Some((b[0], 1))
    else if 0xC2 <= b[0] < 0xE0 && Trails(b, 2) then Some((Join2(b[0], b[1]), 2))
    else if 0xE0 <= b[0] < 0xF0 && Trails(b, 3) then
      var c := Join3(b[0], b[1], b[2]);
      if c >= 0x800 && !(0xD800 <= c <= 0xDFFF) then Some((c, 3)) else None
    else if 0xF0 <= b[0] < 0xF5 && Trails(b, 4) then
      var c := Join4(b[0], b[1], b[2], b[3]);
      if 0x1_0000 <= c < 0x11_0000 then Some((c, 4)) else None
    else None
  }

  lemma Parts2(c: int)
    requires 0x80 <= c < 0x800
    ensures 0xC2 <= 0xC0 + c / 64 < 0xE0 && Join2(0xC0 + c / 64, 0x80 + c % 64) == c
  {
  }

  lemma Parts3(c: int)
    requires 0x800 <= c < 0x1_0000
    ensures 0xE0 <= 0xE0 + c / 4096 < 0xF0 && Join3(0xE0 + c / 4096, 0x80 + c / 64 % 64, 0x80 + c % 64) == c
  {
    assert c / 64 / 64 == c / 4096;
  }

  lemma Parts4(c: int)
    requires 0x1_0000 <= c < 0x11_0000
    ensures 0xF0 <= 0xF0 + c / 262144 < 0xF5
    ensures Join4(0xF0 + c / 262144, 0x80 + c / 4096 % 64, 0x80 + c / 64 % 64, 0x80 + c % 64) == c
  {
    assert c / 64 / 64 == c / 4096 && c / 4096 / 64 == c / 262144;
  }

  lemma OneRoundTrip(c: Code, rest: seq<Byte>)
    requires !Surrogate(c)
    ensures DecodeOne(EncodeOne(c) + rest) == Some((c, |EncodeOne(c)|))
  {
    var b := EncodeOne(c) + rest;
    if 0x80 <= c < 0x800 {
      Parts2(c);
      assert b[0] == 0xC0 + c / 64 && b[1] == 0x80 + c % 64;
    } else if 0x800 <= c < 0x1_0000 {
      Parts3(c);
      assert b[0] == 0xE0 + c / 4096 && b[1] == 0x80 + c / 64 % 64 && b[2] == 0x80 + c % 64;
    } else if 0x1_0000 <= c {
      Parts4(c);
      assert b[0] == 0xF0 + c / 262144 && b[1] == 0x80 + c / 4096 % 64 && b[2] == 0x80 + c / 64 % 64
             && b[3] == 0x80 + c % 64;
    }
  }

  lemma Whole2(a: int, b: int)
    requires 0xC2 <= a < 0xE0 && 0x80 <= b < 0xC0
    ensures var c := Join2(a, b); 0x80 <= c < 0x800 && 0xC0 + c / 64 == a && 0x80 + c % 64 == b
  {
  }

  lemma Whole3(a: int, b: int, d: int)
    requires 0xE0 <= a < 0xF0 && 0x80 <= b < 0xC0 && 0x80 <= d < 0xC0
    ensures var c := Join3(a, b, d);
      c < 0x1_0000 && 0xE0 + c / 4096 == a && 0x80 + c / 64 % 64 == b && 0x80 + c % 64 == d
  {
    var c := Join3(a, b, d);
    assert c / 64 == (a - 0xE0) * 64 + (b - 0x80);
  }

  lemma Whole4(a: int, b: int, d: int, e: int)
    requires 0xF0 <= a < 0xF5 && 0x80 <= b < 0xC0 && 0x80 <= d < 0xC0 && 0x80 <= e < 0xC0
    ensures var c := Join4(a, b, d, e);
      0xF0 + c / 262144 == a && 0x80 + c / 4096 % 64 == b && 0x80 + c / 64 % 64 == d && 0x80 + c % 64 == e
  {
    var c := Join4(a, b, d, e);
    assert c / 64 == (a - 0xF0) * 4096 + (b - 0x80) * 64 + (d - 0x80);
    assert c / 4096 == (a - 0xF0) * 64 + (b - 0x80);
  }

  /** Strictness: what is read is the only way of writing it. */
  lemma OneReadBack(b: seq<Byte>)
    requires b != [] && DecodeOne(b).Some?
    ensures var (c, n) := DecodeOne(b).value;
      !Surrogate(c) && b[..n] == EncodeOne(c)
  {
    var n := DecodeOne(b).value.1;
    if n == 2 {
      Whole2(b[0], b[1]);
    } else if n == 3 {
      Whole3(b[0], b[1], b[2]);
    } else if n == 4 {
      Whole4(b[0], b[1], b[2], b[3]);
    }
  }

  function Encode(s: seq<Code>): (b: seq<Byte>)
    requires Clean(s)
  {
    if s == [] then [] else EncodeOne(s[0]) + Encode(s[1..])
  }

  function Decode(b: seq<Byte>): Option<seq<Code>>
    decreases |b|
  {
    if b == [] then Some([])
    else
      var one := DecodeOne(b);
      if one.None? then None
      else
        var rest := Decode(b[one.value.1..]);
        if rest.None? then None else Some([one.value.0] + rest.value)
  }

  lemma {:induction false} RoundTrip(s: seq<Code>)
    requires Clean(s)
    ensures Decode(Encode(s)) == Some(s)
  {
    if s != [] {
      hide EncodeOne, DecodeOne;
      var b := Encode(s);
      OneRoundTrip(s[0], Encode(s[1..]));
      assert b[|EncodeOne(s[0])|..] == Encode(s[1..]);
      RoundTrip(s[1..]);
      assert [s[0]] + s[1..] == s;
    }
  }

  lemma EncodeCons(c: Code, s: seq<Code>)
    requires !Surrogate(c) && Clean(s)
    ensures Clean([c] + s) && Encode([c] + s) == EncodeOne(c) + Encode(s)
  {
    assert ([c] + s)[1..] == s;
  }

  lemma {:induction false} ReadBack(b: seq<Byte>)
    requires Decode(b).Some?
    ensures Clean(Decode(b).value) && Encode(Decode(b).value) == b
    decreases |b|
  {
    if b != [] {
      hide EncodeOne, DecodeOne, Encode, Clean;
      OneReadBack(b);
      var (c, n) := DecodeOne(b).value;
      ReadBack(b[n..]);
      EncodeCons(c, Decode(b[n..]).value);
      assert b == b[..n] + b[n..];
    } else {
      assert Decode(b).value == [];
    }
  }

  lemma CleanConcat(a: seq<Code>, b: seq<Code>)
    ensures Clean(a + b) <==> Clean(a) && Clean(b)
  {
    if Clean(a + b) {
      forall i | 0 <= i < |a| ensures !Surrogate(a[i]) { assert (a + b)[i] == a[i]; }
      forall i | 0 <= i < |b| ensures !Surrogate(b[i]) { assert (a + b)[|a| + i] == b[i]; }
    }
  }

  lemma {:induction false} EncodeConcat(s: seq<Code>, t: seq<Code>)
    requires Clean(s) && Clean(t)
    ensures Clean(s + t) && Encode(s + t) == Encode(s) + Encode(t)
  {
    CleanConcat(s, t);
    if s == [] {
      assert s + t == t;
    } else {
      EncodeConcat(s[1..], t);
      hide EncodeOne, Encode, Clean;
      EncodeCons(s[0], s[1..] + t);
      EncodeCons(s[0], s[1..]);
      assert s + t == [s[0]] + (s[1..] + t) && s == [s[0]] + s[1..];
    }
  }

  /** A byte below 0x80 in the encoding is that code point in the text. */
  lemma {:induction false} LowBytes(s: seq<Code>, c: Code)
    requires Clean(s) && c < 0x80
    ensures c in Encode(s) <==> c in s
  {
    if s != [] {
      LowBytes(s[1..], c);
      assert s == [s[0]] + s[1..];
    }
  }
}
