/** The `configure` body: `key TAB value LF` lines, built and parsed. */
module ConfigBody {
  import opened Options
  import opened Utf8
  import opened Text
  import opened Chars

  const TAB: Code := 9
  const NEWLINE: Code := 10

  const CONFIG_KEYS := ["scope.include", "scope.exclude", "dangerous.path", "method.allow", "limit.rate_rps",
                       "limit.rate_burst", "limit.concurrency", "limit.max_requests", "render.allow"]

  type Line = (seq<Code>, seq<Code>)
  type Pairs = seq<(seq<Code>, seq<seq<Code>>)>

  predicate IsConfigKey(key: seq<Code>) {
    exists i :: 0 <= i < |CONFIG_KEYS| && Spells(key, CONFIG_KEYS[i])
  }

  predicate Spells(key: seq<Code>, name: string) {
    |key| == |name| && forall i :: 0 <= i < |key| ==> key[i] == name[i] as int
  }

  /** A key is known when its characters are those of one of the nine. */
  lemma KnownKeys(key: seq<Code>)
    ensures IsConfigKey(key) <==> exists name <- CONFIG_KEYS :: key == Codes(name)
  {
    forall name ensures Spells(key, name) <==> key == Codes(name) {
    }
    if name :| name in CONFIG_KEYS && key == Codes(name) {
      var i :| 0 <= i < |CONFIG_KEYS| && CONFIG_KEYS[i] == name;
      assert Spells(key, CONFIG_KEYS[i]);
    }
    if IsConfigKey(key) {
      var i :| 0 <= i < |CONFIG_KEYS| && Spells(key, CONFIG_KEYS[i]);
      assert CONFIG_KEYS[i] in CONFIG_KEYS && key == Codes(CONFIG_KEYS[i]);
    }
  }

  predicate Writable(value: seq<Code>) {
    TAB !in value && NEWLINE !in value
  }

  datatype Built = Body(bytes: seq<Byte>) | FrameError | UnicodeError

  /** The lines of the pairs, in order. */
  function Flat(pairs: Pairs): seq<Line> {
    if pairs == [] then [] else Each(pairs[0].0, pairs[0].1) + Flat(pairs[1..])
  }

  function Each(key: seq<Code>, values: seq<seq<Code>>): seq<Line> {
    if values == [] then [] else [(key, values[0])] + Each(key, values[1..])
  }

  function LineText(l: Line): seq<Code> {
    l.0 + [TAB] + l.1
  }

  function TextOf(lines: seq<Line>): seq<Code> {
    if lines == [] then [] else LineText(lines[0]) + [NEWLINE] + TextOf(lines[1..])
  }

  predicate LineOk(l: Line) {
    IsConfigKey(l.0) && Writable(l.1)
  }

  predicate Plain(name: string) {
    name != "" && forall j :: 0 <= j < |name| ==> '.' <= name[j] <= 'z'
  }

  lemma FirstNamesPlain()
    ensures Plain("scope.include") && Plain("scope.exclude") && Plain("dangerous.path") && Plain("method.allow")
  {
  }

  lemma OtherNamesPlain()
    ensures Plain("limit.rate_rps") && Plain("limit.rate_burst") && Plain("limit.concurrency")
    ensures Plain("limit.max_requests") && Plain("render.allow")
  {
  }

  lemma NamesPlain()
    ensures forall i :: 0 <= i < |CONFIG_KEYS| ==> Plain(CONFIG_KEYS[i])
  {
    hide Plain;
    FirstNamesPlain();
    OtherNamesPlain();
  }

  lemma KeyPlain(key: seq<Code>)
    requires IsConfigKey(key)
    ensures Clean(key) && Writable(key) && key != []
  {
    NamesPlain();
    var i :| 0 <= i < |CONFIG_KEYS| && Spells(key, CONFIG_KEYS[i]);
    assert Plain(CONFIG_KEYS[i]);
  }

  lemma {:induction false} TextAppend(lines: seq<Line>, l: Line)
    ensures TextOf(lines + [l]) == TextOf(lines) + LineText(l) + [NEWLINE]
  {
    if lines == [] {
      assert lines + [l] == [l] && TextOf([l][1..]) == [];
    } else {
      TextAppend(lines[1..], l);
      assert (lines + [l])[1..] == lines[1..] + [l] && (lines + [l])[0] == lines[0];
    }
  }

  lemma {:induction false} EachAppend(key: seq<Code>, values: seq<seq<Code>>, v: seq<Code>)
    ensures Each(key, values + [v]) == Each(key, values) + [(key, v)]
  {
    if values == [] {
      assert values + [v] == [v];
    } else {
      EachAppend(key, values[1..], v);
      assert (values + [v])[1..] == values[1..] + [v];
    }
  }

  lemma {:induction false} FlatAppend(pairs: Pairs, p: (seq<Code>, seq<seq<Code>>))
    ensures Flat(pairs + [p]) == Flat(pairs) + Each(p.0, p.1)
  {
    hide Each;
    if pairs == [] {
      assert pairs + [p] == [p] && Flat([p][1..]) == [];
    } else {
      FlatAppend(pairs[1..], p);
      assert (pairs + [p])[1..] == pairs[1..] + [p];
    }
  }

  predicate Values(values: seq<seq<Code>>) {
    forall j :: 0 <= j < |values| ==> Writable(values[j]) && Clean(values[j])
  }

  /** Every key is known and every value is one line's worth of encodable text. */
  predicate Buildable(pairs: Pairs) {
    forall i :: 0 <= i < |pairs| ==> IsConfigKey(pairs[i].0) && Values(pairs[i].1)
  }

  /** The lines of one key, behind those already written. */
  method BuildKey(key: seq<Code>, values: seq<seq<Code>>, before: seq<Byte>, ghost done: seq<Line>) returns (r: Built)
    requires IsConfigKey(key) && Clean(TextOf(done)) && before == Encode(TextOf(done))
    ensures r.Body? <==> Values(values)
    ensures r.Body? ==> Clean(TextOf(done + Each(key, values))) && r.bytes == Encode(TextOf(done + Each(key, values)))
  {
    hide Encode, Clean, Writable, IsConfigKey, LineText, TextOf;
    var out := before;
    assert Each(key, values[..0]) == [] && done + [] == done;
    KeyPlain(key);
    for m := 0 to |values|
      invariant Values(values[..m])
      invariant Clean(TextOf(done + Each(key, values[..m]))) && out == Encode(TextOf(done + Each(key, values[..m])))
    {
      var value := values[m];
      if !Writable(value) {
        return FrameError;
      }
      if !Clean(value) {
        return UnicodeError;
      }
      ghost var lines := done + Each(key, values[..m]);
      LineEncoded(TextOf(lines), key, value);
      TextAppend(lines, (key, value));
      EachAppend(key, values[..m], value);
      assert values[..m + 1] == values[..m] + [value];
      assert done + Each(key, values[..m + 1]) == lines + [(key, value)];
      out := out + (Encode(key) + [TAB] + Encode(value) + [NEWLINE]);
    }
    assert values[..|values|] == values;
    r := Body(out);
  }

  /** A body is built exactly when it can be, and is then the pairs' lines and
      nothing else. */
  method BuildConfigBody(pairs: Pairs) returns (r: Built)
    ensures r.Body? <==> Buildable(pairs)
    ensures r.Body? ==> Clean(TextOf(Flat(pairs))) && r.bytes == Encode(TextOf(Flat(pairs)))
  {
    hide Encode, Clean, IsConfigKey, Values, Each;
    var out: seq<Byte> := [];
    assert Flat(pairs[..0]) == [];
    NothingEncoded();
    for n := 0 to |pairs|
      invariant Buildable(pairs[..n])
      invariant Clean(TextOf(Flat(pairs[..n]))) && out == Encode(TextOf(Flat(pairs[..n])))
    {
      var (key, values) := pairs[n];
      if !IsConfigKey(key) {
        return FrameError;
      }
      r := BuildKey(key, values, out, Flat(pairs[..n]));
      if !r.Body? {
        return;
      }
      out := r.bytes;
      FlatAppend(pairs[..n], pairs[n]);
      assert pairs[..n + 1] == pairs[..n] + [pairs[n]];
    }
    assert pairs[..|pairs|] == pairs;
    r := Body(out);
  }

  lemma NothingEncoded()
    ensures Clean(TextOf([])) && Encode(TextOf([])) == []
  {
  }

  lemma LowEncoded(c: Code)
    requires c < 0x80
    ensures Clean([c]) && Encode([c]) == [c]
  {
    assert [c][1..] == [];
    assert Encode([c]) == EncodeOne(c) + Encode([]);
  }

  lemma LineEncoded(before: seq<Code>, key: seq<Code>, value: seq<Code>)
    requires Clean(before) && Clean(key) && Clean(value)
    ensures var t := before + LineText((key, value)) + [NEWLINE];
      Clean(t) && Encode(t) == Encode(before) + (Encode(key) + [TAB] + Encode(value) + [NEWLINE])
  {
    LowEncoded(TAB);
    LowEncoded(NEWLINE);
    hide Encode, Clean;
    EncodeConcat(key, [TAB]);
    EncodeConcat(key + [TAB], value);
    EncodeConcat(before, key + [TAB] + value);
    EncodeConcat(before + (key + [TAB] + value), [NEWLINE]);
  }

  // ---- parsing ----

  /** `pairs.setdefault(key, []).append(value)`. */
  function Add(pairs: Pairs, key: seq<Code>, value: seq<Code>): Pairs {
    if pairs == [] then [(key, [value])]
    else if pairs[0].0 == key then [(key, pairs[0].1 + [value])] + pairs[1..]
    else [pairs[0]] + Add(pairs[1..], key, value)
  }

  function AddAll(pairs: Pairs, lines: seq<Line>): Pairs {
    if lines == [] then pairs else Add(AddAll(pairs, lines[..|lines| - 1]), lines[|lines| - 1].0, lines[|lines| - 1].1)
  }

  /** One line parsed: nothing for a blank one. */
  function ParseLine(raw: seq<Code>): Option<seq<Line>> {
    if raw == [] then Some([])
    else
      var i := Find(raw, TAB);
      if i == |raw| || !IsConfigKey(raw[..i]) then None else Some([(raw[..i], raw[i + 1..])])
  }

  function ParseLines(raws: seq<seq<Code>>): Option<seq<Line>> {
    if raws == [] then Some([])
    else
      var before, last := ParseLines(raws[..|raws| - 1]), ParseLine(raws[|raws| - 1]);
      if before.None? || last.None? then None else Some(before.value + last.value)
  }

  datatype Parsed = Config(pairs: Pairs) | BadLine | NotUtf8

  /** Line by line, against what the lines say. */
  method ParseConfigBody(body: seq<Byte>) returns (r: Parsed)
    ensures r.NotUtf8? <==> Decode(body).None?
    ensures Decode(body).Some? ==>
      match ParseLines(Split(Decode(body).value, NEWLINE))
      case None => r == BadLine
      case Some(lines) => r == Config(AddAll([], lines))
  {
    hide IsConfigKey, Decode;
    var text := Decode(body);
    if text.None? {
      return NotUtf8;
    }
    var raws := Split(text.value, NEWLINE);
    var pairs: Pairs := [];
    ghost var lines: seq<Line> := [];
    for n := 0 to |raws|
      invariant ParseLines(raws[..n]) == Some(lines) && pairs == AddAll([], lines)
    {
      var raw := raws[n];
      assert raws[..n + 1][..n] == raws[..n];
      if raw == [] {
        assert lines + [] == lines;
        continue;
      }
      var i := Find(raw, TAB);
      if i == |raw| || !IsConfigKey(raw[..i]) {
        NoneStays(raws, n + 1);
        return BadLine;
      }
      pairs := Add(pairs, raw[..i], raw[i + 1..]);
      ghost var was := lines;
      lines := lines + [(raw[..i], raw[i + 1..])];
      assert lines[..|lines| - 1] == was;
    }
    assert raws[..|raws|] == raws;
    r := Config(pairs);
  }

  lemma {:induction false} NoneStays(raws: seq<seq<Code>>, n: nat)
    requires n <= |raws| && ParseLines(raws[..n]).None?
    ensures ParseLines(raws).None?
    decreases |raws|
  {
    if n < |raws| {
      assert raws[..|raws| - 1][..n] == raws[..n];
      NoneStays(raws[..|raws| - 1], n);
    } else {
      assert raws[..n] == raws;
    }
  }

  // ---- round trip ----

  lemma ParsesBack(l: Line)
    requires LineOk(l)
    ensures ParseLine(LineText(l)) == Some([l])
  {
    KeyPlain(l.0);
    FindIn(l.0, TAB, l.1);
    var raw := LineText(l);
    assert raw[..|l.0|] == l.0 && raw[|l.0| + 1..] == l.1;
  }

  function Texts(lines: seq<Line>): seq<seq<Code>> {
    if lines == [] then [] else [LineText(lines[0])] + Texts(lines[1..])
  }

  lemma {:induction false} SplitText(lines: seq<Line>)
    requires forall i :: 0 <= i < |lines| ==> LineOk(lines[i])
    ensures Split(TextOf(lines), NEWLINE) == Texts(lines) + [[]]
  {
    if lines == [] {
      assert TextOf(lines) == [];
    } else {
      SplitText(lines[1..]);
      KeyPlain(lines[0].0);
      assert LineOk(lines[0]);
      SplitPrefix(LineText(lines[0]), NEWLINE, TextOf(lines[1..]));
    }
  }

  lemma {:induction false} ParseTexts(lines: seq<Line>)
    requires forall i :: 0 <= i < |lines| ==> LineOk(lines[i])
    ensures ParseLines(Texts(lines)) == Some(lines)
  {
    hide LineOk, LineText, ParseLine;
    if lines != [] {
      var init, last := lines[..|lines| - 1], lines[|lines| - 1];
      ParseTexts(init);
      ParsesBack(last);
      TextsAppend(init, last);
      assert lines == init + [last];
      assert Texts(lines)[..|Texts(lines)| - 1] == Texts(init);
    }
  }

  lemma {:induction false} TextsAppend(lines: seq<Line>, l: Line)
    ensures Texts(lines + [l]) == Texts(lines) + [LineText(l)]
  {
    if lines == [] {
      assert lines + [l] == [l] && Texts([l][1..]) == [];
    } else {
      TextsAppend(lines[1..], l);
      assert (lines + [l])[1..] == lines[1..] + [l];
    }
  }

  /** The pairs that say something: a key with no values writes no line. */
  function Saying(pairs: Pairs): Pairs {
    if pairs == [] then []
    else if pairs[0].1 == [] then Saying(pairs[1..])
    else [pairs[0]] + Saying(pairs[1..])
  }

  predicate DistinctKeys(pairs: Pairs) {
    forall i, j :: 0 <= i < j < |pairs| ==> pairs[i].0 != pairs[j].0
  }

  predicate Lacks(pairs: Pairs, key: seq<Code>) {
    forall i :: 0 <= i < |pairs| ==> pairs[i].0 != key
  }

  lemma {:induction false} AddNew(pairs: Pairs, key: seq<Code>, values: seq<seq<Code>>, v: seq<Code>)
    requires Lacks(pairs, key)
    ensures Add(pairs, key, v) == pairs + [(key, [v])]
    ensures Add(pairs + [(key, values)], key, v) == pairs + [(key, values + [v])]
  {
    if pairs != [] {
      AddNew(pairs[1..], key, values, v);
      assert (pairs + [(key, values)])[1..] == pairs[1..] + [(key, values)];
    }
  }

  lemma {:induction false} AddEach(pairs: Pairs, key: seq<Code>, values: seq<seq<Code>>)
    requires Lacks(pairs, key)
    ensures AddAll(pairs, Each(key, values)) == if values == [] then pairs else pairs + [(key, values)]
    decreases |values|
  {
    if values != [] {
      var init, v := values[..|values| - 1], values[|values| - 1];
      AddEach(pairs, key, init);
      assert values == init + [v];
      EachAppend(key, init, v);
      var lines := Each(key, values);
      assert lines[..|lines| - 1] == Each(key, init);
      AddNew(pairs, key, init, v);
    }
  }

  lemma {:induction false} AddAllConcat(pairs: Pairs, a: seq<Line>, b: seq<Line>)
    ensures AddAll(pairs, a + b) == AddAll(AddAll(pairs, a), b)
    decreases |b|
  {
    if b == [] {
      assert a + b == a;
    } else {
      AddAllConcat(pairs, a, b[..|b| - 1]);
      assert (a + b)[..|a + b| - 1] == a + b[..|b| - 1];
    }
  }

  lemma LacksNext(before: Pairs, pairs: Pairs, now: Pairs)
    requires pairs != [] && DistinctKeys(pairs) && forall i :: 0 <= i < |pairs| ==> Lacks(before, pairs[i].0)
    requires now == before || now == before + [pairs[0]]
    ensures DistinctKeys(pairs[1..]) && forall i :: 0 <= i < |pairs[1..]| ==> Lacks(now, pairs[1..][i].0)
  {
    var rest := pairs[1..];
    forall i | 0 <= i < |rest| ensures Lacks(now, rest[i].0) {
      assert rest[i] == pairs[i + 1] && Lacks(before, pairs[i + 1].0) && pairs[0].0 != pairs[i + 1].0;
    }
    forall i, j | 0 <= i < j < |rest| ensures rest[i].0 != rest[j].0 {
      assert pairs[i + 1].0 != pairs[j + 1].0;
    }
  }

  lemma SayingStep(before: Pairs, pairs: Pairs)
    requires pairs != []
    ensures before + Saying(pairs)
            == (if pairs[0].1 == [] then before else before + [pairs[0]]) + Saying(pairs[1..])
  {
  }

  lemma {:induction false} AddAllFlat(before: Pairs, pairs: Pairs)
    requires DistinctKeys(pairs) && forall i :: 0 <= i < |pairs| ==> Lacks(before, pairs[i].0)
    ensures AddAll(before, Flat(pairs)) == before + Saying(pairs)
    decreases |pairs|
  {
    if pairs == [] {
      assert Flat(pairs) == [] && before + Saying(pairs) == before;
    } else {
      AddEach(before, pairs[0].0, pairs[0].1);
      hide AddAll, Add, Each, Lacks, DistinctKeys, Saying;
      var (key, values) := pairs[0];
      AddAllConcat(before, Each(key, values), Flat(pairs[1..]));
      var now := if values == [] then before else before + [pairs[0]];
      LacksNext(before, pairs, now);
      AddAllFlat(now, pairs[1..]);
      SayingStep(before, pairs);
    }
  }

  lemma {:induction false} FlatOk(pairs: Pairs)
    requires Buildable(pairs)
    ensures forall i :: 0 <= i < |Flat(pairs)| ==> LineOk(Flat(pairs)[i])
  {
    hide IsConfigKey, Writable;
    if pairs != [] {
      assert IsConfigKey(pairs[0].0) && Values(pairs[0].1);
      forall i | 0 <= i < |pairs[1..]| ensures IsConfigKey(pairs[1..][i].0) && Values(pairs[1..][i].1) {
        assert pairs[1..][i] == pairs[i + 1];
      }
      FlatOk(pairs[1..]);
      EachOk(pairs[0].0, pairs[0].1);
    }
  }

  lemma {:induction false} EachOk(key: seq<Code>, values: seq<seq<Code>>)
    requires IsConfigKey(key) && Values(values)
    ensures forall i :: 0 <= i < |Each(key, values)| ==> LineOk(Each(key, values)[i])
  {
    hide IsConfigKey, Writable;
    if values != [] {
      EachOk(key, values[1..]);
    }
  }

  /** A configuration is parsed back whole, but for the keys that had no value. */
  method BuildThenParse(pairs: Pairs) returns (r: Parsed)
    requires DistinctKeys(pairs)
    requires Buildable(pairs)
    ensures r == Config(Saying(pairs))
  {
    hide IsConfigKey, Writable, Encode, Decode, Clean, Split, Texts;
    var built := BuildConfigBody(pairs);
    RoundTrip(TextOf(Flat(pairs)));
    var lines := Flat(pairs);
    FlatOk(pairs);
    SplitText(lines);
    ParseTexts(lines);
    var raws := Texts(lines) + [[]];
    assert raws[..|raws| - 1] == Texts(lines) && ParseLine([]) == Some([]);
    assert ParseLines(raws) == Some(lines + []) && lines + [] == lines;
    AddAllFlat([], pairs);
    assert [] + Saying(pairs) == Saying(pairs);
    r := ParseConfigBody(built.bytes);
  }
}
