/** `hx.identity.IdentityWindow`, `hx.identity.canary` and `hx.scan._IdentityBracket`. */
module Identity {
  import opened Options
  import opened Probe
  import opened IdentityTrace

  /** Fields of the window; `firstOpen` is None until it is opened. */
  datatype Window = Window(since: nat, firstOpen: Option<bool>, anyFailure: bool)

  function StateOf(w: Window): State {
    if w.firstOpen != Some(true) then Dead else if w.anyFailure then Assumed else Proven
  }

  class IdentityWindow {
    const dueEvery: nat
    var since: nat
    var firstOpen: Option<bool>
    var anyFailure: bool

    ghost function Fields(): Window
      reads this
    {
      Window(since, firstOpen, anyFailure)
    }

    constructor (dueEvery: nat)
      ensures this.dueEvery == dueEvery && Fields() == Window(0, None, false)
    {
      this.dueEvery := dueEvery;
      since, firstOpen, anyFailure := 0, None, false;
    }

    method Open(passed: bool)
      modifies this
      ensures Fields() == Window(0, if old(firstOpen).None? then Some(passed) else old(firstOpen),
                                 old(anyFailure) || !passed)
    {
      if firstOpen.None? {
        firstOpen := Some(passed);
      }
      if !passed {
        anyFailure := true;
      }
      since := 0;
    }

    method NoteProbe() returns (due: bool)
      modifies this`since
      ensures due <==> old(since) + 1 >= dueEvery
      ensures since == if due then 0 else old(since) + 1
    {
      since := since + 1;
      if since >= dueEvery {
        since := 0;
        return true;
      }
      due := false;
    }

    method Close(passed: bool)
      modifies this`anyFailure
      ensures anyFailure <==> old(anyFailure) || !passed
    {
      if !passed {
        anyFailure := true;
      }
    }

    function StateForRun(): (s: State)
      reads this
      ensures s == StateOf(Fields())
    {
      if firstOpen != Some(true) then Dead else if anyFailure then Assumed else Proven
    }
  }

  /** The declared proof of a session. */
  datatype Liveness = Liveness(path: string, expectBody: seq<int>, expectAbsent: Option<seq<int>>)

  predicate Contains(body: seq<int>, part: seq<int>) {
    exists i :: 0 <= i <= |body| && part <= body[i..]
  }

  /** The response a canary accepts: a 2xx status and the declared signature. */
  predicate Alive(l: Liveness, got: Got) {
    && got.Response?
    && got.status.Some? && 200 <= got.status.value < 300
    && Contains(got.body, l.expectBody)
    && (l.expectAbsent.Some? ==> !Contains(got.body, l.expectAbsent.value))
  }

  predicate PartAt(body: seq<int>, part: seq<int>, i: nat) {
    i + |part| <= |body| && body[i..i + |part|] == part
  }

  /** The part stands somewhere in the body. */
  ghost predicate StandsIn(body: seq<int>, part: seq<int>) {
    exists i: nat :: PartAt(body, part, i)
  }

  lemma ContainsMeans(body: seq<int>, part: seq<int>)
    ensures Contains(body, part) <==> StandsIn(body, part)
  {
    if Contains(body, part) {
      var i :| 0 <= i <= |body| && part <= body[i..];
      assert body[i..][..|part|] == body[i..i + |part|];
      assert PartAt(body, part, i);
    }
    if StandsIn(body, part) {
      var i: nat :| PartAt(body, part, i);
      assert body[i..][..|part|] == part;
    }
  }

  /** What one refresh of a programmatic identity comes to. */
  datatype Refresh = RefreshFails | RegisterFails | Refreshed

  /** A method of the bracket goes on, or raises `IdentityDead`, or raises
      something else. */
  datatype Step = Goes | RaisesDead | RaisesOther

  /** What a run's canaries are asked with. */
  datatype Ident = Ident(liveness: Liveness, programmatic: bool, refreshes: nat -> Refresh, every: nat)

  /** The answers from `from` on pass a canary: the attempts the first of them ask
      for are made, and the last is a result the declaration accepts. */
  predicate Passes(l: Liveness, answer: nat -> Answer, from: nat) {
    var last := answer(from + Attempts(answer, from) - 1);
    RefusedAs(last).None? && last.Result? && Alive(l, Response(last.status, last.body))
  }

  /** A canary passes exactly on a result that is "ok" and 2xx, with the declared
      signature in its body, and without the one declared absent, if any. */
  lemma PassesExactlyWhen(l: Liveness, answer: nat -> Answer, from: nat)
    ensures var last := answer(from + Attempts(answer, from) - 1);
      Passes(l, answer, from) <==>
        && last.Result? && last.outcome == "ok" && last.status.Some? && 200 <= last.status.value <= 299
        && StandsIn(last.body, l.expectBody)
        && (l.expectAbsent.Some? ==> !StandsIn(last.body, l.expectAbsent.value))
  {
    var last := answer(from + Attempts(answer, from) - 1);
    hide Contains, StandsIn;
    if last.Result? {
      ContainsMeans(last.body, l.expectBody);
      if l.expectAbsent.Some? {
        ContainsMeans(last.body, l.expectAbsent.value);
      }
    }
  }

  /** What a canary comes to, with the one refresh a programmatic identity gets:
      how it first came out, whether the session is live in the end, and if not
      whether that is because the bridge would not take the renewed credential, where
      the wire then is, and at which generation. */
  datatype Settled = Settled(raw: bool, live: bool, lost: bool, pos: nat, gen: nat)

  function SettledFrom(id: Ident, answer: nat -> Answer, pos: nat, gen: nat): (s: Settled)
    ensures pos < s.pos
  {
    var raw, mid := Passes(id.liveness, answer, pos), pos + Attempts(answer, pos);
    if raw || !id.programmatic then Settled(raw, raw, false, mid, gen)
    else match id.refreshes(gen)
      case RefreshFails => Settled(raw, false, false, mid, gen)
      case RegisterFails => Settled(raw, false, true, mid, gen + 1)
      case Refreshed => Settled(raw, Passes(id.liveness, answer, mid), false, mid + Attempts(answer, mid), gen + 1)
  }

  /** The last thing that happened is a canary that did not pass. */
  predicate EndsDead(t: seq<Event>) {
    t != [] && t[|t| - 1] == Event.Canary(false)
  }

  class IdentityBracket {
    const wire: Wire
    const liveness: Liveness
    const programmatic: bool
    const refreshes: nat -> Refresh
    const target: (string, string, int)
    const window: IdentityWindow
    var due: bool
    var generation: nat
    var canaryRequests: nat
    var refused: multiset<string>
    ghost var trace: seq<Event>
    ghost var openLen: nat

    /** The window says of the trace what the trace says itself. */
    ghost predicate Valid()
      reads this, window
    {
      && window.dueEvery >= 1
      && Paced(trace, window.dueEvery)
      && window.since < window.dueEvery
      && (!due ==> window.since == Since(trace))
      && (due <==> Since(trace) >= window.dueEvery)
      && (window.firstOpen.None? ==> !window.anyFailure && !due && forall e <- trace :: e.Canary?)
      && (window.firstOpen.Some? ==>
            && SendablePath(liveness.path) && Opening(trace, openLen)
            && window.firstOpen == Some(trace[openLen - 1].passed)
            && (window.firstOpen == Some(true) ==> (window.anyFailure <==> !AllPassed(trace, openLen))))
    }

    function Id(): Ident {
      Ident(liveness, programmatic, refreshes, window.dueEvery)
    }

    ghost predicate Running()
      reads this, window
    {
      Valid() && window.firstOpen == Some(true)
    }

    constructor (wire: Wire, liveness: Liveness, programmatic: bool, refreshes: nat -> Refresh,
                 every: nat, target: (string, string, int))
      requires every >= 1
      ensures this.wire == wire && this.target == target && this.liveness == liveness
      ensures fresh(window) && window.dueEvery == every && generation == 1
      ensures Id() == Ident(liveness, programmatic, refreshes, every)
      ensures Valid() && trace == [] && canaryRequests == 0 && refused == multiset{}
      ensures window.firstOpen.None?
    {
      this.wire := wire;
      this.liveness := liveness;
      this.programmatic := programmatic;
      this.refreshes := refreshes;
      this.target := target;
      window := new IdentityWindow(every);
      due, generation, canaryRequests, refused := false, 1, 0, multiset{};
      trace, openLen := [], 0;
    }

    /** One liveness request, through the ordinary send path. */
    method Canary() returns (passed: bool)
      requires SendablePath(liveness.path)
      modifies this`canaryRequests, this`refused, this`trace, wire
      ensures trace == old(trace) + [Event.Canary(passed)]
      ensures old(wire.sends) <= wire.sends
      ensures canaryRequests == old(canaryRequests) + IssuedCount(wire.answer, old(wire.sends), wire.sends)
      ensures var n := Attempts(wire.answer, old(wire.sends));
        var last := wire.answer(old(wire.sends) + n - 1);
        && wire.sends == old(wire.sends) + n
        && (passed <==> RefusedAs(last).None? && last.Result? && Alive(liveness, Response(last.status, last.body)))
        && (passed <==> Passes(liveness, wire.answer, old(wire.sends)))
        && refused == old(refused) + (if RefusedAs(last).Some? then multiset{RefusedAs(last).value} else multiset{})
    {
      var sender := new ProbeSender(wire);
      var got := sender.Get(liveness.path);
      passed := Alive(liveness, got);
      canaryRequests := canaryRequests + sender.sent;
      refused := refused + sender.refused;
      trace := trace + [Event.Canary(passed)];
    }

    /** What the canary said, and what it said once the one refresh a programmatic
        identity gets had been tried. */
    method Settle() returns (raw: bool, settled: bool, step: Step)
      requires SendablePath(liveness.path)
      modifies this`canaryRequests, this`refused, this`trace, this`generation, wire
      ensures Settled(raw, step.Goes? && settled, step.RaisesOther?, wire.sends, generation)
              == SettledFrom(Id(), wire.answer, old(wire.sends), old(generation))
      ensures old(wire.sends) <= wire.sends
      ensures canaryRequests == old(canaryRequests) + IssuedCount(wire.answer, old(wire.sends), wire.sends)
      ensures raw || !programmatic ==>
                step.Goes? && settled == raw && trace == old(trace) + [Event.Canary(raw)]
      ensures !raw && programmatic ==>
                if step.Goes? then trace == old(trace) + [Event.Canary(false), Event.Canary(settled)]
                                   && generation == old(generation) + 1
                else trace == old(trace) + [Event.Canary(false)]
    {
      hide Passes, Alive, IssuedCount, Attempts, RefusedAs, SendablePath;
      ghost var start := wire.sends;
      raw := Canary();
      settled := raw;
      if raw || !programmatic {
        return raw, raw, Goes;
      }
      match refreshes(generation) {
        case RefreshFails => return raw, false, RaisesDead;
        case RegisterFails =>
          generation := generation + 1;
          return raw, false, RaisesOther;
        case Refreshed =>
      }
      generation := generation + 1;
      ghost var mid := wire.sends;
      settled := Canary();
      IssuedCountSplits(wire.answer, start, mid, wire.sends);
      step := Goes;
    }

    /** The opening canary: the run goes on exactly when the session settled live. */
    method Start(registers: bool) returns (step: Step)
      requires Valid() && window.firstOpen.None? && trace == []
      modifies this, window, wire
      ensures step.Goes? == Running()
      ensures step.Goes? ==> SendablePath(liveness.path) && !due && window.StateForRun() == Proven
      ensures step.Goes? ==> forall e <- trace :: e.Canary?
      ensures !step.Goes? ==> !registers || !SendablePath(liveness.path) || EndsDead(trace)
      ensures var s := SettledFrom(Id(), wire.answer, old(wire.sends), old(generation));
        && (step.Goes? <==> registers && SendablePath(liveness.path) && s.live)
        && (step.RaisesDead? <==> registers && SendablePath(liveness.path) && !s.live && !s.lost)
        && (step.Goes? ==> wire.sends == s.pos && generation == s.gen && !window.anyFailure)
      ensures old(wire.sends) <= wire.sends
      ensures canaryRequests == old(canaryRequests) + IssuedCount(wire.answer, old(wire.sends), wire.sends)
    {
      hide SettledFrom, IssuedCount, SendablePath, Paced, Since, AllPassed;
      if !registers {
        return RaisesOther;
      }
      if !SendablePath(liveness.path) {
        // the sender's ValueError, which `canary` lets through
        return RaisesOther;
      }
      var raw, settled, s := Settle();
      if !s.Goes? {
        return s;
      }
      openLen := |trace|;
      PacedCanaries(trace, window.dueEvery);
      OpensOn(trace);
      window.Open(settled);
      step := if settled then Goes else RaisesDead;
    }

    /** Counts one row's probes toward the next canary. */
    method Note(probes: nat)
      requires Running() && !due
      modifies this`due, this`trace, window`since
      ensures Running() && trace == old(trace) + [Event.Row(probes)] && Since(trace) == old(Since(trace)) + probes
      ensures due <==> Since(trace) >= window.dueEvery
    {
      ghost var before := window.since;
      for i := 0 to probes
        invariant trace == old(trace) && window.since < window.dueEvery
        invariant due <==> before + i >= window.dueEvery
        invariant !due ==> window.since == before + i
      {
        var hit := window.NoteProbe();
        if hit {
          due := true;
        }
      }
      PacedAppend(trace, window.dueEvery, Event.Row(probes));
      ghost var was := trace;
      trace := trace + [Event.Row(probes)];
      SamePassed(was, openLen, Event.Row(probes));
    }

    /** The mid-run canary, once `every` probes have gone by. Where it raises the
        run is over and the window is not read again. */
    method CanaryIfDue() returns (step: Step)
      requires Running()
      modifies this, window, wire
      ensures step.Goes? ==> Running() && !due
      ensures old(wire.sends) <= wire.sends
      ensures canaryRequests == old(canaryRequests) + IssuedCount(wire.answer, old(wire.sends), wire.sends)
      ensures openLen == old(openLen) && old(trace) <= trace
      ensures forall i :: |old(trace)| <= i < |trace| ==> trace[i].Canary?
      ensures !old(due) ==> step.Goes? && trace == old(trace) && refused == old(refused)
      ensures old(due) ==> |trace| > |old(trace)|
      ensures old(due) && step.Goes? ==> trace[|trace| - 1] == Event.Canary(true)
      ensures !step.Goes? ==> EndsDead(trace)
      ensures !old(due) ==>
        wire.sends == old(wire.sends) && generation == old(generation) && window.anyFailure == old(window.anyFailure)
      ensures old(due) ==>
        var s := SettledFrom(Id(), wire.answer, old(wire.sends), old(generation));
        && (step.Goes? <==> s.live) && (step.RaisesDead? <==> !s.live && !s.lost)
        && wire.sends == s.pos && generation == s.gen
        && (step.Goes? ==> Since(trace) == 0 && (window.anyFailure <==> old(window.anyFailure) || !s.raw))
    {
      hide SettledFrom, IssuedCount, SendablePath, Paced, Since, AllPassed;
      if !due {
        return Goes;
      }
      due := false;
      ghost var t := trace;
      var raw, settled, s := Settle();
      if !s.Goes? {
        return s;
      }
      Recanaried(t, trace, window.dueEvery, openLen);
      assert raw <==> forall i :: |t| <= i < |trace| ==> trace[i] != Event.Canary(false) by {
        assert trace[|t|] == Event.Canary(raw);
      }
      window.Close(raw);
      if !settled {
        return RaisesDead;
      }
      window.Open(true);
      step := Goes;
    }

    /** The closing canary, which always runs and never raises. A run is proven
        exactly when the canary it opened on and every canary since have passed;
        then each of its probes lies between two consecutive passing canaries. */
    method Finish()
      requires Running()
      modifies this`canaryRequests, this`refused, this`trace, window`anyFailure, wire
      ensures window.StateForRun() != Dead
      ensures Opening(trace, openLen) && trace[|trace| - 1].Canary? && Paced(trace, window.dueEvery)
      ensures window.StateForRun() == Proven <==> AllPassed(trace, openLen)
      ensures window.StateForRun() == Proven <==>
        !old(window.anyFailure) && Passes(liveness, wire.answer, old(wire.sends))
      ensures window.StateForRun() == Proven ==> forall r :: 0 <= r < |trace| && trace[r].Row? ==> Bracketed(trace, r)
      ensures |trace| == |old(trace)| + 1 && old(trace) <= trace
      ensures old(wire.sends) <= wire.sends
      ensures canaryRequests == old(canaryRequests) + IssuedCount(wire.answer, old(wire.sends), wire.sends)
    {
      ghost var t := trace;
      var passed := Canary();
      PacedAppend(t, window.dueEvery, Event.Canary(passed));
      SamePassed(t, openLen, Event.Canary(passed));
      window.Close(passed);
      if window.StateForRun() == Proven {
        ProvenIsBracketed(trace, openLen);
      }
    }
  }

  lemma {:induction false} PacedCanaries(t: seq<Event>, every: nat)
    requires forall i :: 0 <= i < |t| ==> t[i].Canary?
    ensures Paced(t, every) && Since(t) == 0
  {
  }

  lemma OpensOn(t: seq<Event>)
    requires t != [] && forall e <- t :: e.Canary?
    ensures Opening(t, |t|) && (AllPassed(t, |t|) <==> t[|t| - 1].passed)
  {
    assert t[|t| - 1] in t;
  }

  /** Canaries behind a trace leave it nothing to be due for, and its word as good
      as theirs. */
  lemma {:induction false} Recanaried(t: seq<Event>, u: seq<Event>, every: nat, openLen: nat)
    requires Paced(t, every) && Opening(t, openLen) && t <= u && |t| < |u|
    requires forall i :: |t| <= i < |u| ==> u[i].Canary?
    ensures Paced(u, every) && Since(u) == 0 && Opening(u, openLen) && u[openLen - 1] == t[openLen - 1]
    ensures AllPassed(u, openLen) <==>
              AllPassed(t, openLen) && forall i :: |t| <= i < |u| ==> u[i] != Event.Canary(false)
    decreases |u|
  {
    var v, last := u[..|u| - 1], u[|u| - 1];
    assert u == v + [last];
    if |t| < |v| {
      Recanaried(t, v, every, openLen);
    } else {
      assert v == t;
    }
    PacedAppend(v, every, last);
    SamePassed(v, openLen, last);
  }

  lemma SamePassed(t: seq<Event>, openLen: nat, e: Event)
    requires Opening(t, openLen)
    ensures Opening(t + [e], openLen)
    ensures AllPassed(t + [e], openLen) <==> AllPassed(t, openLen) && e != Event.Canary(false)
    ensures (t + [e])[openLen - 1] == t[openLen - 1]
  {
    var u := t + [e];
    assert u[|t|] == e;
    forall i | openLen - 1 <= i < |t| ensures u[i] == t[i] { }
  }
}
