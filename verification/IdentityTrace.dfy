/** What a run's canaries and probes say about the session, as a sequence. */
module IdentityTrace {

  datatype State = Proven | Assumed | Dead

  /** `Row(n)` is one `check_run` row whose sender issued `n` probes. */
  datatype Event = Canary(passed: bool) | Row(probes: nat)

  /** Probes issued since the last canary. */
  function Since(t: seq<Event>): nat {
    if t == [] || t[|t| - 1].Canary? then 0
    else Since(t[..|t| - 1]) + t[|t| - 1].probes
  }

  /** No row starts with `every` probes or more behind it and no canary since: an
      undetected death contaminates at most `every - 1` probes and one row. */
  ghost predicate Paced(t: seq<Event>, every: nat) {
    forall r :: 0 <= r < |t| && t[r].Row? ==> Since(t[..r]) < every
  }

  /** The first `openLen` events are the canaries that opened the run: no row, and
      the last of them is the one the window was opened on. */
  predicate Opening(t: seq<Event>, openLen: nat) {
    && 0 < openLen <= |t|
    && forall i :: 0 <= i < openLen ==> t[i].Canary?
  }

  /** Row `r` lies between two consecutive canaries, and both passed. */
  ghost predicate Bracketed(t: seq<Event>, r: nat)
    requires r < |t|
  {
    exists a: nat, b: nat :: a < r < b < |t| && t[a] == Canary(true) && t[b] == Canary(true)
      && forall k :: a < k < b ==> t[k].Row?
  }

  /** The session was proved when the run opened and at every canary since. */
  predicate AllPassed(t: seq<Event>, openLen: nat)
    requires Opening(t, openLen)
  {
    forall i :: openLen - 1 <= i < |t| ==> t[i] != Canary(false)
  }

  lemma {:induction false} CanaryBefore(t: seq<Event>, openLen: nat, r: nat) returns (a: nat)
    requires Opening(t, openLen) && AllPassed(t, openLen) && openLen <= r <= |t|
    ensures a < r && t[a] == Canary(true) && forall k :: a < k < r ==> t[k].Row?
    decreases r
  {
    if t[r - 1].Canary? {
      a := r - 1;
    } else {
      a := CanaryBefore(t, openLen, r - 1);
    }
  }

  lemma {:induction false} CanaryAfter(t: seq<Event>, openLen: nat, r: nat) returns (b: nat)
    requires Opening(t, openLen) && AllPassed(t, openLen) && openLen <= r < |t|
    requires t[|t| - 1].Canary?
    ensures r <= b < |t| && t[b] == Canary(true) && forall k :: r <= k < b ==> t[k].Row?
    decreases |t| - r
  {
    if t[r].Canary? {
      b := r;
    } else {
      b := CanaryAfter(t, openLen, r + 1);
    }
  }

  /** A run whose every canary passed, and which ended on one, brackets every probe. */
  lemma ProvenIsBracketed(t: seq<Event>, openLen: nat)
    requires Opening(t, openLen) && AllPassed(t, openLen) && t[|t| - 1].Canary?
    ensures forall r :: 0 <= r < |t| && t[r].Row? ==> Bracketed(t, r)
  {
    forall r | 0 <= r < |t| && t[r].Row? ensures Bracketed(t, r) {
      var a := CanaryBefore(t, openLen, r);
      var b := CanaryAfter(t, openLen, r);
    }
  }

  /** Two canaries bound what one dead session can have touched: of the probes in
      between, all but the last row's number fewer than `every`. */
  lemma {:induction false} GapBound(t: seq<Event>, every: nat, a: nat, b: nat)
    requires Paced(t, every) && a < b < |t| && t[a].Canary?
    requires forall k :: a < k < b ==> t[k].Row?
    ensures b > a + 1 ==> Since(t[..b]) - t[b - 1].probes < every
    ensures b == a + 1 ==> Since(t[..b]) == 0
  {
    assert t[..b][..b - 1] == t[..b - 1];
    if b > a + 1 {
      assert t[..b][b - 1] == t[b - 1] && t[b - 1].Row?;
    }
  }

  lemma PacedAppend(t: seq<Event>, every: nat, e: Event)
    requires Paced(t, every) && (e.Row? ==> Since(t) < every)
    ensures Paced(t + [e], every)
    ensures Since(t + [e]) == if e.Canary? then 0 else Since(t) + e.probes
  {
    var u := t + [e];
    assert u[..|t|] == t;
    forall r | 0 <= r < |u| && u[r].Row? ensures Since(u[..r]) < every {
      if r < |t| { assert u[..r] == t[..r]; }
    }
  }
}
