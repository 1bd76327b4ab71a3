/** `hx.store.records.dedupe_key`: what makes two findings one. */
module DedupeKeys {
  import opened Options
  import opened Utf8
  import opened Chars
  import Json
  import Text

  /** How much of where it was seen is part of what a finding is. */
  datatype Scope = Engagement | Host | OneSurface | OnePoint

  /** Where a finding was seen: the surface, and the point inside it, if any. */
  datatype Place = Place(
    scheme: string, host: string, port: int, verb: string, template: string, kind: string, name: string)

  /** The nine parts as they are written; no port is None. */
  datatype DedupeKey = DedupeKey(
    check: string, issue: string, scheme: string, host: string, port: Option<int>, verb: string,
    template: string, kind: string, name: string)

  /** A part that is absent, or empty, is a dash. */
  function Written(part: string): string {
    if part == "" then "-" else part
  }

  predicate Dash(part: string) {
    part == "" || part == "-"
  }

  /** Two parts that are written alike: the same, or a dash both. */
  predicate Alike(a: string, b: string) {
    a == b || (Dash(a) && Dash(b))
  }

  function Key(check: string, issue: string, scope: Scope, at: Place): DedupeKey {
    var wide, narrow := scope == Engagement, scope == OneSurface || scope == OnePoint;
    DedupeKey(Written(check), Written(issue),
              if wide then "-" else Written(at.scheme), if wide then "-" else Written(at.host),
              if wide then None else Some(at.port),
              if narrow then Written(at.verb) else "-", if narrow then Written(at.template) else "-",
              Written(at.kind), Written(at.name))
  }

  /** Two sightings of one scope are one finding: the same check and issue at the same
      point, and, as far as the scope narrows it, on the same origin and under the same
      method and template. */
  predicate OneFinding(checkA: string, issueA: string, a: Place, checkB: string, issueB: string, b: Place,
                       scope: Scope)
  {
    && Alike(checkA, checkB) && Alike(issueA, issueB) && Alike(a.kind, b.kind) && Alike(a.name, b.name)
    && (scope != Engagement ==> Alike(a.scheme, b.scheme) && Alike(a.host, b.host) && a.port == b.port)
    && (scope == OneSurface || scope == OnePoint ==> Alike(a.verb, b.verb) && Alike(a.template, b.template))
  }

  lemma KeysAgree(checkA: string, issueA: string, a: Place, checkB: string, issueB: string, b: Place, scope: Scope)
    ensures Key(checkA, issueA, scope, a) == Key(checkB, issueB, scope, b)
            <==> OneFinding(checkA, issueA, a, checkB, issueB, b, scope)
  {
    WrittenAlike(checkA, checkB);
    WrittenAlike(issueA, issueB);
    WrittenAlike(a.scheme, b.scheme);
    WrittenAlike(a.host, b.host);
    WrittenAlike(a.verb, b.verb);
    WrittenAlike(a.template, b.template);
    WrittenAlike(a.kind, b.kind);
    WrittenAlike(a.name, b.name);
    hide Written, Alike;
  }

  lemma WrittenAlike(a: string, b: string)
    ensures Written(a) == Written(b) <==> Alike(a, b)
  {
  }

  // ---- the key as one string ----

  const PIPE: Code := 124
  const DASH: seq<Code> := [45]

  function PortText(port: Option<int>): (r: seq<Code>)
    ensures PIPE !in r
  {
    if port.None? then DASH
    else if port.value < 0 then DASH + Json.Decimal(-port.value)
    else Json.Decimal(port.value)
  }

  lemma PortsApart(a: Option<int>, b: Option<int>)
    ensures PortText(a) == PortText(b) <==> a == b
  {
    if a.Some? {
      Json.NatOfDecimal(if a.value < 0 then -a.value else a.value);
    }
    if b.Some? {
      Json.NatOfDecimal(if b.value < 0 then -b.value else b.value);
    }
    if PortText(a) == PortText(b) && a.Some? && b.Some? && a.value < 0 && b.value < 0 {
      assert PortText(a)[1..] == Json.Decimal(-a.value) && PortText(b)[1..] == Json.Decimal(-b.value);
    }
  }

  function Parts(k: DedupeKey): seq<seq<Code>> {
    [Codes(k.check), Codes(k.issue), Codes(k.scheme), Codes(k.host), PortText(k.port), Codes(k.verb),
     Codes(k.template), Codes(k.kind), Codes(k.name)]
  }

  /** `"|".join(parts)`. */
  function Spelled(k: DedupeKey): seq<Code> {
    Text.Join(Parts(k), PIPE)
  }

  /** No part but the last, the name of an insertion point, has the separator in it. */
  predicate Separable(k: DedupeKey) {
    '|' !in k.check && '|' !in k.issue && '|' !in k.scheme && '|' !in k.host && '|' !in k.verb
    && '|' !in k.template && '|' !in k.kind
  }

  lemma CodesApart(a: string, b: string)
    ensures Codes(a) == Codes(b) <==> a == b
    ensures PIPE in Codes(a) <==> '|' in a
  {
    if Codes(a) == Codes(b) {
      forall i | 0 <= i < |a| ensures a[i] == b[i] {
        assert Codes(a)[i] == Codes(b)[i];
      }
    }
    if PIPE in Codes(a) {
      var i :| 0 <= i < |a| && Codes(a)[i] == PIPE;
      assert a[i] == '|';
    }
    if '|' in a {
      var i :| 0 <= i < |a| && a[i] == '|';
      assert Codes(a)[i] == PIPE;
    }
  }

  lemma PartsApart(a: DedupeKey, b: DedupeKey)
    ensures Parts(a) == Parts(b) <==> a == b
    ensures Separable(a) ==> forall i :: 0 <= i < 8 ==> PIPE !in Parts(a)[i]
  {
    CodesApart(a.check, b.check);
    CodesApart(a.issue, b.issue);
    CodesApart(a.scheme, b.scheme);
    CodesApart(a.host, b.host);
    CodesApart(a.verb, b.verb);
    CodesApart(a.template, b.template);
    CodesApart(a.kind, b.kind);
    CodesApart(a.name, b.name);
    PortsApart(a.port, b.port);
    hide Codes, PortText;
    var x, y := Parts(a), Parts(b);
    if x == y {
      assert x[0] == y[0] && x[1] == y[1] && x[2] == y[2] && x[3] == y[3] && x[4] == y[4];
      assert x[5] == y[5] && x[6] == y[6] && x[7] == y[7] && x[8] == y[8];
    }
  }

  /** The string tells two findings apart wherever the separator is in none of their
      parts but the last. */
  lemma SpelledApart(a: DedupeKey, b: DedupeKey)
    requires Separable(a) && Separable(b)
    ensures Spelled(a) == Spelled(b) <==> a == b
  {
    PartsApart(a, b);
    PartsApart(b, a);
    if Spelled(a) == Spelled(b) {
      hide Parts;
      assert |Parts(a)| == 9 && |Parts(b)| == 9 by { PartsNine(a); PartsNine(b); }
      Text.JoinApart(Parts(a), Parts(b), PIPE);
    }
  }

  lemma PartsNine(k: DedupeKey)
    ensures |Parts(k)| == 9
  {
  }

  /** And not where it is in a template: a finding on one surface, and one at an
      insertion point of another, can be filed under one string. */
  lemma SpelledAlike(check: string, issue: string, scheme: string, host: string, port: int, verb: string)
    ensures var a, b := Place(scheme, host, port, verb, "/a|query", "", ""),
                        Place(scheme, host, port, verb, "/a", "query", "-|-");
      && Key(check, issue, OneSurface, a) != Key(check, issue, OnePoint, b)
      && Spelled(Key(check, issue, OneSurface, a)) == Spelled(Key(check, issue, OnePoint, b))
  {
    var a := Place(scheme, host, port, verb, "/a|query", "", "");
    var b := Place(scheme, host, port, verb, "/a", "query", "-|-");
    var j, k := Key(check, issue, OneSurface, a), Key(check, issue, OnePoint, b);
    var first := Parts(j)[..6];
    assert Parts(j) == first + [Codes("/a|query"), Codes("-"), Codes("-")];
    assert Parts(k) == first + [Codes("/a"), Codes("query"), Codes("-|-")];
    TailsAlike();
    Text.JoinSplit(first, [Codes("/a|query"), Codes("-"), Codes("-")], PIPE);
    Text.JoinSplit(first, [Codes("/a"), Codes("query"), Codes("-|-")], PIPE);
    assert j.template != k.template;
  }

  lemma TailsAlike()
    ensures Text.Join([Codes("/a|query"), Codes("-"), Codes("-")], PIPE)
            == Text.Join([Codes("/a"), Codes("query"), Codes("-|-")], PIPE)
  {
    Joined(Codes("/a|query"), Codes("-"), Codes("-"));
    Joined(Codes("/a"), Codes("query"), Codes("-|-"));
    assert Codes("/a|query") == Codes("/a") + [PIPE] + Codes("query");
    assert Codes("-|-") == Codes("-") + [PIPE] + Codes("-");
  }

  lemma Joined(a: seq<Code>, b: seq<Code>, c: seq<Code>)
    ensures Text.Join([a, b, c], PIPE) == a + [PIPE] + b + [PIPE] + c
  {
    assert [a, b, c][1..] == [b, c] && [b, c][1..] == [c];
    assert Text.Join([b, c], PIPE) == b + [PIPE] + c;
    assert a + [PIPE] + (b + [PIPE] + c) == a + [PIPE] + b + [PIPE] + c;
  }
}
