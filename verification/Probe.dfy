/** `hx.checks.probe.ProbeSender`: the bounded retry between a check and the wire. */
module Probe {
  import opened Options
  import opened Chars
  import opened Insertion
  import opened Text

  const RATE_LIMIT_ATTEMPTS := 3
  const RETRY_CEILING := 1.0
  const RETRY_SLACK := 0.02

  const NOT_ISSUED := {"scope_denied", "method_denied", "dangerous_denied", "rate_limited",
                      "budget_exhausted", "halted", "not_configured", "unmanaged_credential",
                      "unknown_identity", "identity_origin"}

  /** What one `BridgeServer.send` does: return a result frame, or raise a
      `BridgeError` with its class and its hint. A hint that is absent or not a
      number is None. */
  datatype Answer =
    | Result(outcome: string, status: Option<int>, body: seq<int>)
    | Raised(errorClass: Option<string>, hint: Option<real>)

  /** The wire's class for a raised answer. */
  function Class(a: Answer): string
    requires a.Raised?
  {
    if a.errorClass.None? || a.errorClass.value == "" then "transport_error" else a.errorClass.value
  }

  function Min(a: real, b: real): real {
    if a <= b then a else b
  }

  /** Seconds to wait, or None for a refusal that is terminal. */
  function RateLimitWait(hint: Option<real>): (w: Option<real>)
    ensures w.Some? <==> hint.Some? && hint.value > 0.0
    ensures w.Some? ==> RETRY_SLACK < w.value <= RETRY_CEILING + RETRY_SLACK
    // never shorter than the hint, up to a second, and longer by the slack alone
    ensures w.Some? ==> w.value - 0.02 == if hint.value < 1000000.0 then hint.value / 1000000.0 else 1.0
  {
    if hint.None? || hint.value <= 0.0 then None
    else Some(Min(hint.value / 1000000.0, RETRY_CEILING) + RETRY_SLACK)
  }

  /** The longest that so many waits can take. */
  function LongestNaps(waits: nat): real {
    waits as real * (RETRY_CEILING + RETRY_SLACK)
  }

  lemma OneMoreNap(waits: nat)
    ensures LongestNaps(0) == 0.0 && LongestNaps(waits + 1) == LongestNaps(waits) + RETRY_CEILING + RETRY_SLACK
  {
  }

  /** A refusal that asks to be waited out, and does so with a usable hint. */
  predicate Waitable(a: Answer) {
    a.Raised? && Class(a) == "rate_limited" && RateLimitWait(a.hint).Some?
  }

  /** The attempt may have put a request on the target's system. */
  predicate Issued(a: Answer) {
    a.Result? || Class(a) !in NOT_ISSUED
  }

  /** A retry is for a refusal that says so and gives a positive hint, and for no
      other. Nothing was issued exactly where the answer names one of these refusals:
      one that names none, or a name unknown here, may have been. */
  lemma RetriesAndIssues(a: Answer)
    ensures Waitable(a) <==>
      a.Raised? && a.errorClass == Some("rate_limited") && a.hint.Some? && a.hint.value > 0.0
    ensures !Issued(a) <==>
      && a.Raised? && a.errorClass.Some?
      && a.errorClass.value in {"scope_denied", "method_denied", "dangerous_denied", "rate_limited",
                                "budget_exhausted", "halted", "not_configured", "unmanaged_credential",
                                "unknown_identity", "identity_origin"}
  {
  }

  /** The class a probe that ends on `a` is refused under, if it is. */
  function RefusedAs(a: Answer): Option<string> {
    match a
    case Result(outcome, _, _) => if outcome == "ok" then None else Some(outcome)
    case Raised(_, _) => Some(Class(a))
  }

  /** How many sends a `get` makes of the answers that await it. */
  function Attempts(answer: nat -> Answer, from: nat): (n: nat)
    ensures 1 <= n <= RATE_LIMIT_ATTEMPTS
    ensures forall i :: from <= i < from + n - 1 ==> Waitable(answer(i)) && !Issued(answer(i))
    ensures n < RATE_LIMIT_ATTEMPTS ==> !Waitable(answer(from + n - 1))
  {
    if !Waitable(answer(from)) then 1 else if !Waitable(answer(from + 1)) then 2 else 3
  }

  /** How many of the answers from `from` up to `until` were issuances. */
  function IssuedCount(answer: nat -> Answer, from: nat, until: nat): (n: nat)
    ensures from <= until ==> n <= until - from
    decreases until
  {
    if from >= until then 0
    else IssuedCount(answer, from, until - 1) + if Issued(answer(until - 1)) then 1 else 0
  }

  lemma {:induction false} IssuedCountSplits(answer: nat -> Answer, a: nat, b: nat, c: nat)
    requires a <= b <= c
    ensures IssuedCount(answer, a, c) == IssuedCount(answer, a, b) + IssuedCount(answer, b, c)
    decreases c
  {
    if b < c {
      IssuedCountSplits(answer, a, b, c - 1);
    }
  }

  /** A `get` is at most one issuance however many attempts it makes. */
  lemma AttemptsIssue(answer: nat -> Answer, from: nat)
    ensures var n := Attempts(answer, from);
      IssuedCount(answer, from, from + n) == if Issued(answer(from + n - 1)) then 1 else 0
  {
    var n := Attempts(answer, from);
    assert forall i :: from <= i < from + n - 1 ==> !Issued(answer(i));
    assert IssuedCount(answer, from, from) == 0;
    if n >= 2 { assert IssuedCount(answer, from, from + 1) == 0; }
    if n == 3 { assert IssuedCount(answer, from, from + 2) == 0; }
  }

  /** The bridge and the clock: how often it was asked and how long was slept. */
  class Wire {
    const answer: nat -> Answer
    var sends: nat
    var naps: nat
    var slept: real

    constructor (answer: nat -> Answer)
      ensures this.answer == answer && sends == 0 && naps == 0 && slept == 0.0
    {
      this.answer := answer;
      sends, naps, slept := 0, 0, 0.0;
    }

    method Send() returns (a: Answer)
      modifies this`sends
      ensures a == answer(old(sends)) && sends == old(sends) + 1
    {
      a := answer(sends);
      sends := sends + 1;
    }

    method Sleep(seconds: real)
      modifies this`naps, this`slept
      ensures naps == old(naps) + 1 && slept == old(slept) + seconds
    {
      naps := naps + 1;
      slept := slept + seconds;
    }
  }

  /** A path the sender's guards let through: the request line is encoded as
      Latin-1 before anything is sent. */
  predicate SendablePath(path: string) {
    path != "" && path[0] == '/' && !HoldsPlaceholder(path) && Latin1(Codes(path))
  }

  /** Such a path starts with a slash, has no stretch in braces between two of them
      before its query, and no character past U+00FF. */
  lemma SendableMeans(path: string)
    ensures SendablePath(path) <==>
      && path != "" && path[0] == '/'
      && (forall i, j :: !InBraces(path[..Find(path, '?')], i, j))
      && (forall c <- path :: c as int < 256)
  {
    HoldsPlaceholderMeans(path);
    assert forall i :: 0 <= i < |path| ==> path[i] in path;
    hide HoldsPlaceholder, InBraces;
    assert Latin1(Codes(path)) <==> forall c <- path :: c as int < 256;
  }

  /** Where the wire is after these paths were asked for from `pos`. */
  function SentBy(answer: nat -> Answer, pos: nat, paths: seq<string>): (end: nat)
    ensures pos <= end
  {
    if paths == [] then pos
    else
      var mid := SentBy(answer, pos, paths[..|paths| - 1]);
      if SendablePath(paths[|paths| - 1]) then mid + Attempts(answer, mid) else mid
  }

  /** `BadPath` is the ValueError of a path that does not pass; the other two are a returned
      `ProbeResponse` and a raised `ProbeRefused`. */
  datatype Got = BadPath | Response(status: Option<int>, body: seq<int>) | Refused(reason: string)

  /** What a probe comes to, by its last answer: a result that is "ok" is a response;
      any other, or an error, is a refusal, named if it has a name. */
  function Ends(last: Answer): Got {
    match last
    case Result(outcome, status, body) => if outcome == "ok" then Response(status, body) else Refused(outcome)
    case Raised(None, _) => Refused("transport_error")
    case Raised(Some(c), _) => Refused(if c == "" then "transport_error" else c)
  }

  lemma EndsAsRefused(a: Answer)
    ensures RefusedAs(a).Some? ==> Ends(a) == Refused(RefusedAs(a).value)
    ensures RefusedAs(a).None? ==> a.Result? && Ends(a) == Response(a.status, a.body)
  {
  }

  class ProbeSender {
    const wire: Wire
    var sent: nat
    var refused: multiset<string>

    constructor (wire: Wire)
      ensures this.wire == wire && sent == 0 && refused == multiset{}
    {
      this.wire := wire;
      sent, refused := 0, multiset{};
    }

    method Get(path: string) returns (got: Got)
      modifies this`sent, this`refused, wire
      ensures got.BadPath? <==> !SendablePath(path)
      ensures got.BadPath? ==> (sent == old(sent) && refused == old(refused)
                    && wire.sends == old(wire.sends) && wire.naps == old(wire.naps) && wire.slept == old(wire.slept))
      ensures !got.BadPath? ==>
        var n := Attempts(wire.answer, old(wire.sends));
        var last := wire.answer(old(wire.sends) + n - 1);
        && wire.sends == old(wire.sends) + n && wire.naps == old(wire.naps) + n - 1
        && old(wire.slept) <= wire.slept <= old(wire.slept) + LongestNaps(n - 1)
        && sent == old(sent) + (if Issued(last) then 1 else 0)
        && sent == old(sent) + IssuedCount(wire.answer, old(wire.sends), wire.sends)
        && (got.Response? <==> RefusedAs(last).None?)
        && (got.Response? ==> last.Result? && got == Response(last.status, last.body))
        && (got.Refused? ==> RefusedAs(last) == Some(got.reason))
        && refused == old(refused) + (if got.Refused? then multiset{got.reason} else multiset{})
        && got == Ends(last)
    {
      hide HoldsPlaceholder, Latin1, Codes, LongestNaps, IssuedCount, Class, Attempts, RateLimitWait, Ends;
      if path == "" || path[0] != '/' {
        return BadPath;
      }
      if HoldsPlaceholder(path) || !Latin1(Codes(path)) {
        return BadPath;
      }
      AttemptsIssue(wire.answer, wire.sends);
      OneMoreNap(0);
      var attemptsLeft := RATE_LIMIT_ATTEMPTS;
      ghost var start := wire.sends;
      while true
        invariant 1 <= attemptsLeft <= RATE_LIMIT_ATTEMPTS
        invariant wire.sends == start + RATE_LIMIT_ATTEMPTS - attemptsLeft
        invariant wire.naps == old(wire.naps) + (wire.sends - start)
        invariant old(wire.slept) <= wire.slept <= old(wire.slept) + LongestNaps(wire.sends - start)
        invariant forall i :: start <= i < wire.sends ==> Waitable(wire.answer(i))
        invariant sent == old(sent) && refused == old(refused)
        decreases attemptsLeft
      {
        OneMoreNap(wire.sends - start);
        attemptsLeft := attemptsLeft - 1;
        var a := wire.Send();
        EndsAsRefused(a);
        match a {
          case Raised(_, hint) =>
            var cls := Class(a);
            if cls !in NOT_ISSUED {
              sent := sent + 1;
            }
            var wait := if cls == "rate_limited" then RateLimitWait(hint) else None;
            if wait.Some? && attemptsLeft > 0 {
              wire.Sleep(wait.value);
              continue;
            }
            refused := refused + multiset{cls};
            return Refused(cls);
          case Result(outcome, status, body) =>
            sent := sent + 1;
            if outcome != "ok" {
              refused := refused + multiset{outcome};
              return Refused(outcome);
            }
            return Response(status, body);
        }
      }
    }

    /** Over any sequence of probes: as many refusals are counted as were raised,
        and no more is counted sent than was let through the guards. */
    method GetAll(paths: seq<string>) returns (got: seq<Got>)
      modifies this`sent, this`refused, wire
      ensures |got| == |paths|
      ensures |refused| == |old(refused)| + CountOf(got, (g: Got) => g.Refused?)
      ensures sent <= old(sent) + |paths| - CountOf(got, (g: Got) => g.BadPath?)
      ensures sent >= old(sent) + CountOf(got, (g: Got) => g.Response?)
      ensures old(wire.sends) <= wire.sends <= old(wire.sends) + 3 * |paths|
      ensures wire.sends == SentBy(wire.answer, old(wire.sends), paths)
      ensures sent == old(sent) + IssuedCount(wire.answer, old(wire.sends), wire.sends)
    {
      hide SendablePath, Attempts, LongestNaps;
      got := [];
      ghost var start := wire.sends;
      assert paths[..0] == [];
      for i := 0 to |paths|
        invariant |got| == i
        invariant |refused| == |old(refused)| + CountOf(got, (g: Got) => g.Refused?)
        invariant sent <= old(sent) + i - CountOf(got, (g: Got) => g.BadPath?)
        invariant sent >= old(sent) + CountOf(got, (g: Got) => g.Response?)
        invariant start <= wire.sends <= start + 3 * i
        invariant wire.sends == SentBy(wire.answer, start, paths[..i])
        invariant sent == old(sent) + IssuedCount(wire.answer, start, wire.sends)
      {
        ghost var mid := wire.sends;
        assert paths[..i + 1][..i] == paths[..i];
        var g := Get(paths[i]);
        IssuedCountSplits(wire.answer, start, mid, wire.sends);
        assert (got + [g])[..i] == got;
        got := got + [g];
      }
      assert paths[..|paths|] == paths;
    }
  }

  function CountOf(got: seq<Got>, what: Got -> bool): nat {
    if got == [] then 0
    else CountOf(got[..|got| - 1], what) + if what(got[|got| - 1]) then 1 else 0
  }
}
