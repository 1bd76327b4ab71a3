/** `hx.bridge.codec`: one frame as bytes. */
module Codec {
  import opened Options
  import opened Utf8
  import opened Json
  import Text

  const MAX_FRAME := 64 * 1024 * 1024
  const PREFIX_SIZE := 4

  function Pack(n: nat): (b: seq<Byte>)
    requires n < 0x1_0000_0000
    ensures |b| == PREFIX_SIZE
  {
    [n / 0x100_0000, n / 0x1_0000 % 0x100, n / 0x100 % 0x100, n % 0x100]
  }

  function Unpack(b: seq<Byte>): (n: nat)
    requires |b| >= PREFIX_SIZE
    ensures n < 0x1_0000_0000
  {
    Join(b[0], b[1], b[2], b[3])
  }

  function Join(a: int, b: int, c: int, d: int): int {
    a * 0x100_0000 + b * 0x1_0000 + c * 0x100 + d
  }

  lemma JoinParts(n: nat)
    requires n < 0x1_0000_0000
    ensures Join(n / 0x100_0000, n / 0x1_0000 % 0x100, n / 0x100 % 0x100, n % 0x100) == n
  {
    assert n / 0x100 / 0x100 == n / 0x1_0000 && n / 0x1_0000 / 0x100 == n / 0x100_0000;
  }

  lemma PartsJoin(a: int, b: int, c: int, d: int)
    requires 0 <= a < 0x100 && 0 <= b < 0x100 && 0 <= c < 0x100 && 0 <= d < 0x100
    ensures var n := Join(a, b, c, d);
      n / 0x100_0000 == a && n / 0x1_0000 % 0x100 == b && n / 0x100 % 0x100 == c && n % 0x100 == d
  {
    var n := Join(a, b, c, d);
    assert n / 0x100 == a * 0x1_0000 + b * 0x100 + c;
    assert n / 0x1_0000 == a * 0x100 + b;
  }

  lemma Prefixed(n: nat, rest: seq<Byte>)
    requires n < 0x1_0000_0000
    ensures |Pack(n) + rest| >= PREFIX_SIZE && Unpack(Pack(n) + rest) == n
  {
    JoinParts(n);
    var b := Pack(n) + rest;
    assert b[0] == Pack(n)[0] && b[1] == Pack(n)[1] && b[2] == Pack(n)[2] && b[3] == Pack(n)[3];
  }

  lemma PackedBack(b: seq<Byte>)
    requires |b| >= PREFIX_SIZE
    ensures Pack(Unpack(b)) == b[..PREFIX_SIZE]
  {
    PartsJoin(b[0], b[1], b[2], b[3]);
  }

  // ---- headers ----

  const KEY_V: seq<Code> := [118]
  const KEY_T: seq<Code> := [116]
  const KEY_BODIES: seq<Code> := [98, 111, 100, 105, 101, 115]

  predicate ValueOk(v: Value) {
    && (v.Str? ==> Clean(v.s))
    && (v.Num? ==> -0x8000_0000_0000_0000 <= v.n < 0x8000_0000_0000_0000)
  }

  /** `_check_header` lets the header through. */
  predicate HeaderOk(h: Header) {
    Has(h, KEY_V) && Has(h, KEY_T) && forall i :: 0 <= i < |h| ==> ValueOk(h[i].1)
  }

  lemma ValueOkMeans(v: Value)
    ensures ValueOk(v) <==>
      && (v.Str? ==> forall c <- v.s :: c < 0xD800 || c > 0xDFFF)
      && (v.Num? ==> -9_223_372_036_854_775_808 <= v.n <= 9_223_372_036_854_775_807)
  {
    if v.Str? {
      assert forall i :: 0 <= i < |v.s| ==> v.s[i] in v.s;
    }
  }

  lemma HasMeans(h: Header, key: seq<Code>)
    ensures Has(h, key) <==> exists f <- h :: f.0 == key
  {
    assert forall i :: 0 <= i < |h| ==> h[i] in h;
  }

  /** What a header needs: a version, a type, no unpaired surrogate in a value, and no
      number a signed 64-bit integer cannot hold. */
  lemma HeaderOkMeans(h: Header)
    ensures HeaderOk(h) <==>
      && (exists f <- h :: f.0 == [118]) && (exists f <- h :: f.0 == [116])
      && (forall f <- h :: f.1.Str? ==> forall c <- f.1.s :: c < 0xD800 || c > 0xDFFF)
      && (forall f <- h :: f.1.Num? ==> -9_223_372_036_854_775_808 <= f.1.n <= 9_223_372_036_854_775_807)
  {
    assert forall f :: f in h <==> exists i :: 0 <= i < |h| && h[i] == f;
    forall i | 0 <= i < |h| ensures ValueOk(h[i].1) <==>
      && (h[i].1.Str? ==> forall c <- h[i].1.s :: c < 0xD800 || c > 0xDFFF)
      && (h[i].1.Num? ==> -9_223_372_036_854_775_808 <= h[i].1.n <= 9_223_372_036_854_775_807)
    {
      ValueOkMeans(h[i].1);
    }
    HasMeans(h, KEY_V);
    HasMeans(h, KEY_T);
  }

  predicate KeysClean(h: Header) {
    forall i :: 0 <= i < |h| ==> Clean(h[i].0)
  }

  datatype Encoded = Frame(bytes: seq<Byte>) | FrameError | UnicodeError

  function EncodeFrame(h: Header, body: seq<Byte>): Encoded {
    if !HeaderOk(h) then FrameError
    else if !Clean(Print(h)) then UnicodeError
    else
      var payload := Encode(Print(h)) + [10] + body;
      if |payload| > MAX_FRAME then FrameError else Frame(Pack(|payload|) + payload)
  }

  /** `_check_header` looks for surrogates in values and not in keys: a header it
      accepts is encoded, or found too large, exactly when its keys have none
      either. Otherwise what is raised is not a FrameError. */
  lemma EncodesExactlyWhen(h: Header, body: seq<Byte>)
    ensures EncodeFrame(h, body).UnicodeError? <==> HeaderOk(h) && !KeysClean(h)
    ensures EncodeFrame(h, body).Frame? <==>
              HeaderOk(h) && KeysClean(h) && |Encode(Print(h))| + 1 + |body| <= MAX_FRAME
  {
    PrintClean(h);
    if HeaderOk(h) {
      assert Encodable(h) <==> KeysClean(h) by {
        assert forall i :: 0 <= i < |h| ==> ValueOk(h[i].1);
      }
    }
  }

  datatype Reading = Decoded(header: Header, body: seq<Byte>, consumed: nat) | Incomplete | BadFrame

  /** What a whole payload is: a header line of flat JSON, then the body. */
  function ReadPayload(payload: seq<Byte>): Option<(Header, seq<Byte>)> {
    var nl := Text.Find(payload, 10);
    if nl == |payload| then None
    else
      var text := Decode(payload[..nl]);
      if text.None? then None
      else
        var h := Loads(text.value);
        if h.None? || !HeaderOk(h.value) then None else Some((h.value, payload[nl + 1..]))
  }

  function DecodeFrame(buf: seq<Byte>): (r: Reading)
    ensures r.Decoded? ==> PREFIX_SIZE <= r.consumed <= |buf|
  {
    if |buf| < PREFIX_SIZE then Incomplete
    else if Unpack(buf) > MAX_FRAME then BadFrame
    else if |buf| < PREFIX_SIZE + Unpack(buf) then Incomplete
    else
      var end := PREFIX_SIZE + Unpack(buf);
      var r := ReadPayload(buf[PREFIX_SIZE..end]);
      if r.None? then BadFrame else Decoded(r.value.0, r.value.1, end)
  }

  /** The newline that ends the header is the first: none is printed inside it. */
  lemma HeaderEndsAtFirstNewline(h: Header, body: seq<Byte>)
    requires Clean(Print(h))
    ensures Text.Find(Encode(Print(h)) + [10] + body, 10) == |Encode(Print(h))|
  {
    PrintedVisible(h);
    LowBytes(Print(h), 10);
    Text.FindIn(Encode(Print(h)), 10 as Byte, body);
  }

  lemma PayloadReadsBack(h: Header, body: seq<Byte>)
    requires Distinct(h) && HeaderOk(h) && Clean(Print(h))
    ensures ReadPayload(Encode(Print(h)) + [10] + body) == Some((h, body))
  {
    var head := Encode(Print(h));
    var payload := head + [10] + body;
    HeaderEndsAtFirstNewline(h, body);
    assert payload[..|head|] == head && payload[|head| + 1..] == body;
    RoundTrip(Print(h));
    LoadsPrinted(h);
  }

  /** What was encoded is decoded, whatever comes after it, and whole. */
  lemma FrameRoundTrip(h: Header, body: seq<Byte>, suffix: seq<Byte>)
    requires Distinct(h) && EncodeFrame(h, body).Frame?
    ensures var f := EncodeFrame(h, body).bytes;
      DecodeFrame(f + suffix) == Decoded(h, body, |f|)
  {
    hide ReadPayload, Print, Encode, HeaderOk;
    var payload := Encode(Print(h)) + [10] + body;
    var buf := Pack(|payload|) + payload + suffix;
    Prefixed(|payload|, payload + suffix);
    assert buf == Pack(|payload|) + (payload + suffix);
    assert buf[PREFIX_SIZE..PREFIX_SIZE + |payload|] == payload;
    PayloadReadsBack(h, body);
  }

  /** No proper prefix of a frame is read as anything but incomplete. */
  lemma PrefixIncomplete(h: Header, body: seq<Byte>, n: nat)
    requires EncodeFrame(h, body).Frame? && n < |EncodeFrame(h, body).bytes|
    ensures DecodeFrame(EncodeFrame(h, body).bytes[..n]) == Incomplete
  {
    hide ReadPayload, Print, Encode, HeaderOk;
    var f := EncodeFrame(h, body).bytes;
    var payload := Encode(Print(h)) + [10] + body;
    Prefixed(|payload|, payload);
    if n >= PREFIX_SIZE {
      assert f[..n][0] == f[0] && f[..n][1] == f[1] && f[..n][2] == f[2] && f[..n][3] == f[3];
    }
  }

  // ---- a key no encoding has ----

  /** A lone high surrogate, and the text of it as JSON escapes it. */
  const LONE_KEY: seq<Code> := [0xD800]
  const LONE_TEXT: seq<Code> := [92, 117, 100, 56, 48, 48]

  /** `h` with one null member more, under that key, and the JSON of it. */
  function WithLoneKey(h: Header): Header {
    [(LONE_KEY, Null)] + h
  }

  function LoneJson(h: Header): seq<Code>
    requires h != []
  {
    [123, QUOTE] + LONE_TEXT + [QUOTE, 58] + NIL + [44] + PrintMembers(h) + [125]
  }

  lemma LoneKeyReads(rest: seq<Code>)
    ensures ReadStr(LONE_TEXT + [QUOTE] + rest) == Some((LONE_KEY, rest))
  {
    var s := LONE_TEXT + [QUOTE] + rest;
    var tail := [QUOTE] + rest;
    assert s[1..][1..][..4] == [100, 56, 48, 48] && s[1..][1..][4..] == tail;
    assert Hex4(s[1..][1..]) == Some(0xD800);
    assert ReadChar(s) == Some((0xD800, tail));
    assert tail[1..] == rest && [0xD800] + [] == LONE_KEY;
    assert ReadStr(tail) == Some(([], rest));
  }

  lemma LoneMemberReads(rest: seq<Code>)
    requires rest != [] && rest[0] == 44
    ensures ReadMember([QUOTE] + LONE_TEXT + [QUOTE, 58] + NIL + rest) == Some((LONE_KEY, Null, rest))
  {
    var s := [QUOTE] + LONE_TEXT + [QUOTE, 58] + NIL + rest;
    var after := [58] + (NIL + rest);
    assert s[0] == QUOTE && s[1..] == LONE_TEXT + [QUOTE] + after;
    hide ReadStr, ReadValue;
    LoneKeyReads(after);
    assert after[0] == 58 && after[1..] == NIL + rest;
    ReadPrintedWord(Null, rest);
    NoSpace(Null, rest);
  }

  lemma LoneJsonLoads(h: Header)
    requires h != [] && Distinct(WithLoneKey(h))
    ensures Loads(LoneJson(h)) == Some(WithLoneKey(h))
  {
    hide ReadMember, PrintMembers, LONE_TEXT, NIL;
    var s := LoneJson(h);
    var next := PrintMembers(h) + [125] + [];
    var rest := [44] + next;
    var inner := [QUOTE] + LONE_TEXT + [QUOTE, 58] + NIL + rest;
    assert s == [123] + inner && s[0] == 123 && s[1..] == inner && inner[0] == QUOTE;
    LoneMemberReads(rest);
    assert rest[0] == 44 && rest[1..] == next;
    MembersStart(h);
    assert next[0] == QUOTE;
    assert Put([], LONE_KEY, Null) == [(LONE_KEY, Null)];
    ReadPrintedMembers(h, [(LONE_KEY, Null)], []);
  }

  const LONE_FIRST: seq<Code> := [123, QUOTE] + LONE_TEXT + [QUOTE, 58] + NIL + [44]

  lemma LoneFirstEncodes()
    ensures Clean(LONE_FIRST) && Visible(LONE_FIRST)
  {
    assert LONE_FIRST == [123, 34, 92, 117, 100, 56, 48, 48, 34, 58, 110, 117, 108, 108, 44];
  }

  lemma LoneJsonEncodes(h: Header)
    requires h != [] && Encodable(h)
    ensures Clean(LoneJson(h)) && Visible(LoneJson(h))
  {
    LoneFirstEncodes();
    MembersClean(h);
    MembersVisible(h);
    hide PrintMembers, LONE_FIRST;
    CleanConcat(LONE_FIRST + PrintMembers(h), [125]);
    CleanConcat(LONE_FIRST, PrintMembers(h));
    assert LoneJson(h) == LONE_FIRST + PrintMembers(h) + [125] by {
      LoneJsonIs(h);
    }
    assert Visible(LONE_FIRST + PrintMembers(h) + [125]);
  }

  lemma LoneJsonIs(h: Header)
    requires h != []
    ensures LoneJson(h) == LONE_FIRST + PrintMembers(h) + [125]
  {
    hide PrintMembers;
  }

  lemma OkEncodable(h: Header)
    requires HeaderOk(h) && KeysClean(h)
    ensures h != [] && Encodable(h)
  {
    assert forall i :: 0 <= i < |h| ==> ValueOk(h[i].1);
  }

  function LonePayload(h: Header, body: seq<Byte>): seq<Byte>
    requires HeaderOk(h) && KeysClean(h)
  {
    OkEncodable(h);
    LoneJsonEncodes(h);
    Encode(LoneJson(h)) + [10] + body
  }

  /** The key that cannot be sent can be received: a peer that escapes it has its
      header handed on, past the same check, and encoding that header raises what is
      no FrameError. */
  lemma LoneKeyHandedOn(h: Header, body: seq<Byte>)
    requires HeaderOk(h) && KeysClean(h) && Distinct(h) && |LonePayload(h, body)| <= MAX_FRAME
    ensures var frame := Pack(|LonePayload(h, body)|) + LonePayload(h, body);
      DecodeFrame(frame) == Decoded(WithLoneKey(h), body, |frame|)
    ensures EncodeFrame(WithLoneKey(h), body).UnicodeError?
  {
    hide ReadPayload, LonePayload, HeaderOk, KeysClean, EncodeFrame, WithLoneKey, DecodeFrame, Pack;
    LoneReads(h, body);
    PackedDecodes(LonePayload(h, body));
    LoneKeyRaises(h, body);
  }

  lemma LoneKeyRaises(h: Header, body: seq<Byte>)
    requires HeaderOk(h) && KeysClean(h) && Distinct(h)
    ensures EncodeFrame(WithLoneKey(h), body).UnicodeError?
  {
    hide HeaderOk, KeysClean, EncodeFrame, WithLoneKey;
    LoneHeaderOk(h);
    EncodesExactlyWhen(WithLoneKey(h), body);
  }

  lemma PackedDecodes(payload: seq<Byte>)
    requires |payload| <= MAX_FRAME && ReadPayload(payload).Some?
    ensures var (h, body) := ReadPayload(payload).value;
      DecodeFrame(Pack(|payload|) + payload) == Decoded(h, body, PREFIX_SIZE + |payload|)
  {
    hide ReadPayload;
    Prefixed(|payload|, payload);
    assert (Pack(|payload|) + payload)[PREFIX_SIZE..PREFIX_SIZE + |payload|] == payload;
  }

  lemma LoneReads(h: Header, body: seq<Byte>)
    requires HeaderOk(h) && KeysClean(h) && Distinct(h)
    ensures ReadPayload(LonePayload(h, body)) == Some((WithLoneKey(h), body))
  {
    OkEncodable(h);
    LoneHeaderOk(h);
    LoneJsonEncodes(h);
    LoneJsonLoads(h);
    hide Loads, LoneJson, HeaderOk, WithLoneKey, Encodable, KeysClean;
    var text := LoneJson(h);
    var head := Encode(text);
    var payload := head + [10] + body;
    LowBytes(text, 10);
    Text.FindIn(head, 10 as Byte, body);
    assert payload[..|head|] == head && payload[|head| + 1..] == body;
    RoundTrip(text);
  }

  lemma LoneHeaderOk(h: Header)
    requires HeaderOk(h) && KeysClean(h) && Distinct(h)
    ensures HeaderOk(WithLoneKey(h)) && Distinct(WithLoneKey(h)) && !KeysClean(WithLoneKey(h))
  {
    var odd := WithLoneKey(h);
    assert forall i :: 0 < i < |odd| ==> odd[i] == h[i - 1];
    forall i | 0 <= i < |h| ensures h[i].0 != LONE_KEY {
      assert Clean(h[i].0) && Surrogate(LONE_KEY[0]);
    }
    var v :| 0 <= v < |h| && h[v].0 == KEY_V;
    var t :| 0 <= t < |h| && h[t].0 == KEY_T;
    assert odd[v + 1].0 == KEY_V && odd[t + 1].0 == KEY_T;
    assert odd[0].0 == LONE_KEY && Surrogate(LONE_KEY[0]);
  }

  lemma UnpackPrefix(buf: seq<Byte>, more: seq<Byte>)
    requires |buf| >= PREFIX_SIZE
    ensures Unpack(buf + more) == Unpack(buf)
  {
    var b := buf + more;
    assert b[0] == buf[0] && b[1] == buf[1] && b[2] == buf[2] && b[3] == buf[3];
  }

  /** A verdict once given is not changed by bytes that arrive later. */
  lemma VerdictStands(buf: seq<Byte>, more: seq<Byte>)
    requires !DecodeFrame(buf).Incomplete?
    ensures DecodeFrame(buf + more) == DecodeFrame(buf)
  {
    hide ReadPayload;
    UnpackPrefix(buf, more);
    if Unpack(buf) <= MAX_FRAME {
      var end := PREFIX_SIZE + Unpack(buf);
      assert (buf + more)[PREFIX_SIZE..end] == buf[PREFIX_SIZE..end];
    }
  }

  /** Only its own bytes decide a frame. */
  lemma DecodesAlone(buf: seq<Byte>)
    requires DecodeFrame(buf).Decoded?
    ensures DecodeFrame(buf[..DecodeFrame(buf).consumed]) == DecodeFrame(buf)
  {
    hide ReadPayload;
    var end := DecodeFrame(buf).consumed;
    assert buf == buf[..end] + buf[end..];
    UnpackPrefix(buf[..end], buf[end..]);
    assert buf[..end][PREFIX_SIZE..end] == buf[PREFIX_SIZE..end];
  }

  /** The reader holds a peer to what the writer holds itself to. */
  lemma DecodedOk(buf: seq<Byte>)
    requires DecodeFrame(buf).Decoded?
    ensures HeaderOk(DecodeFrame(buf).header) && Distinct(DecodeFrame(buf).header)
  {
    var payload := buf[PREFIX_SIZE..PREFIX_SIZE + Unpack(buf)];
    LoadsDistinct(Decode(payload[..Text.Find(payload, 10)]).value);
  }

  // ---- two bodies ----

  function EncodeTwo(h: Header, a: seq<Byte>, b: seq<Byte>): Encoded {
    if PREFIX_SIZE + |a| + PREFIX_SIZE + |b| > MAX_FRAME then FrameError
    else EncodeFrame(Put(h, KEY_BODIES, Num(2)), Pack(|a|) + a + (Pack(|b|) + b))
  }

  /** Whether the header declares two bodies; None where it declares something
      this version does not read. */
  function DeclaresTwo(h: Header): Option<bool> {
    match Get(h, KEY_BODIES)
    case None => Some(false)
    case Some(v) => if v == Num(2) then Some(true) else None
  }

  function BodySpans(payload: seq<Byte>): (r: Option<(nat, nat, nat, nat)>)
    ensures r.Some? ==> var (a, b, c, d) := r.value; a <= b <= c <= d == |payload|
  {
    if |payload| < PREFIX_SIZE then None
    else
      var n1 := Unpack(payload);
      if |payload| < PREFIX_SIZE + n1 + PREFIX_SIZE then None
      else
        var n2 := Unpack(payload[PREFIX_SIZE + n1..]);
        if |payload| != 2 * PREFIX_SIZE + n1 + n2 then None
        else
          var second := 2 * PREFIX_SIZE + n1;
          Some((PREFIX_SIZE, PREFIX_SIZE + n1, second, second + n2))
  }

  function SplitBodies(h: Header, payload: seq<Byte>): Option<(seq<Byte>, seq<Byte>)> {
    if DeclaresTwo(h) != Some(true) then None
    else match BodySpans(payload)
      case None => None
      case Some((a, b, c, d)) => Some((payload[a..b], payload[c..d]))
  }

  /** A payload splits exactly when its header declares the number 2 of bodies and it
      is two length-prefixed bodies and nothing else, and then into those two. */
  lemma SplitsExactly(h: Header, payload: seq<Byte>, a: seq<Byte>, b: seq<Byte>)
    ensures SplitBodies(h, payload) == Some((a, b)) <==>
              && Get(h, KEY_BODIES) == Some(Num(2))
              && |a| < 0x1_0000_0000 && |b| < 0x1_0000_0000 && payload == Pack(|a|) + a + (Pack(|b|) + b)
  {
    hide Pack, Unpack, Get;
    if |a| < 0x1_0000_0000 && |b| < 0x1_0000_0000 && payload == Pack(|a|) + a + (Pack(|b|) + b) {
      Prefixed(|a|, a + (Pack(|b|) + b));
      assert payload == Pack(|a|) + (a + (Pack(|b|) + b));
      assert payload[PREFIX_SIZE + |a|..] == Pack(|b|) + b;
      Prefixed(|b|, b);
      assert payload[PREFIX_SIZE..PREFIX_SIZE + |a|] == a;
      assert payload[2 * PREFIX_SIZE + |a|..] == b;
      assert payload[2 * PREFIX_SIZE + |a|..|payload|] == b;
    }
    if SplitBodies(h, payload) == Some((a, b)) {
      var n1 := Unpack(payload);
      var rest := payload[PREFIX_SIZE + n1..];
      PackedBack(payload);
      PackedBack(rest);
      assert rest == rest[..PREFIX_SIZE] + b;
      assert payload == payload[..PREFIX_SIZE] + a + rest;
    }
  }

  lemma TwoBodiesRoundTrip(h: Header, a: seq<Byte>, b: seq<Byte>, suffix: seq<Byte>)
    requires Distinct(h) && EncodeTwo(h, a, b).Frame?
    ensures var f := EncodeTwo(h, a, b).bytes;
      var stamped := Put(h, KEY_BODIES, Num(2));
      var body := Pack(|a|) + a + (Pack(|b|) + b);
      DecodeFrame(f + suffix) == Decoded(stamped, body, |f|) && SplitBodies(stamped, body) == Some((a, b))
  {
    hide EncodeFrame, DecodeFrame, SplitBodies, Pack;
    PutDistinct(h, KEY_BODIES, Num(2));
    PutGet(h, KEY_BODIES, Num(2), KEY_BODIES);
    var body := Pack(|a|) + a + (Pack(|b|) + b);
    FrameRoundTrip(Put(h, KEY_BODIES, Num(2)), body, suffix);
    SplitsExactly(Put(h, KEY_BODIES, Num(2)), body, a, b);
  }
}
