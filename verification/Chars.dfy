/** The classes of character several formats share. */
module Chars {
  import opened Options
  import opened Utf8

  predicate IsDigit(c: Code) {
    48 <= c <= 57
  }

  predicate AllDigits(s: seq<Code>) {
    s != [] && forall i :: 0 <= i < |s| ==> IsDigit(s[i])
  }

  /** What a hexadecimal digit of either case stands for. */
  function HexValue(c: Code): (r: Option<int>)
    ensures r.Some? ==> 0 <= r.value < 16
  {
    if IsDigit(c) then Some(c - 48)
    else if 65 <= c <= 70 then Some(c - 55)
    else if 97 <= c <= 102 then Some(c - 87)
    else None
  }

  function LowerCode(c: Code): Code {
    if 65 <= c <= 90 then c + 32 else c
  }

  /** ASCII letters in lower case, and every other character as it is. */
  function Lower(s: seq<Code>): (r: seq<Code>)
    ensures |r| == |s|
  {
    seq(|s|, i requires 0 <= i < |s| => LowerCode(s[i]))
  }

  /** The same of a string. */
  function LowerText(s: string): (r: string)
    ensures |r| == |s| && forall i :: 0 <= i < |s| ==> r[i] == LowerCode(s[i] as int) as char
  {
    seq(|s|, i requires 0 <= i < |s| => LowerCode(s[i] as int) as char)
  }

  /** A text Latin-1 can encode, byte for character. */
  predicate Latin1(s: seq<Code>) {
    forall i :: 0 <= i < |s| ==> s[i] < 256
  }

  function Codes(s: string): (r: seq<Code>)
    ensures |r| == |s| && forall i :: 0 <= i < |s| ==> r[i] == s[i] as int
  {
    seq(|s|, i requires 0 <= i < |s| => s[i] as int)
  }
}
