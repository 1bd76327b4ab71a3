/** What a run's session lives through, as a function of the answers on the wire. */
module Session {
  import opened Options
  import opened Probe
  import opened IdentityTrace
  import opened Identity
  import opened ScanPlan

  /** Where the wire is, the probes since the last canary, the generation of the
      credential, and whether every canary since the opening one passed at first. */
  datatype Session = Session(pos: nat, since: nat, gen: nat, clean: bool)

  /** The canary, if one is due; None where it finds the session dead. */
  function DueFrom(id: Ident, answer: nat -> Answer, s: Session): Option<Session> {
    if s.since < id.every then Some(s)
    else
      var settled := SettledFrom(id, answer, s.pos, s.gen);
      if settled.live then Some(Session(settled.pos, 0, settled.gen, s.clean && settled.raw)) else None
  }

  /** One pair: no time and nothing asked, or the canary and then the probes of its
      sender, if it is given one. */
  function PairFrom(id: Ident, w: World, answer: nat -> Answer, s: Session, p: Pair): Option<Session>
    requires InWorld(w, p)
  {
    if p.0 in w.late then Some(s) else RowFrom(w, answer, DueFrom(id, answer, s), p)
  }

  function RowFrom(w: World, answer: nat -> Answer, s: Option<Session>, p: Pair): Option<Session>
    requires InWorld(w, p)
  {
    if s.None? || !HasSender(w, p) then s
    else
      var end := SentBy(answer, s.value.pos, w.behave(p).paths);
      Some(s.value.(pos := end, since := s.value.since + IssuedCount(answer, s.value.pos, end)))
  }

  function PairsFrom(id: Ident, w: World, answer: nat -> Answer, s: Session, ps: seq<Pair>): Option<Session>
    requires AllIn(w, ps)
  {
    if ps == [] then Some(s)
    else
      var before := PairsFrom(id, w, answer, s, ps[..|ps| - 1]);
      if before.None? then None else PairFrom(id, w, answer, before.value, ps[|ps| - 1])
  }

  /** The session as the opening canary leaves it. */
  function OpensAs(id: Ident, answer: nat -> Answer, start: nat): Session {
    var opening := SettledFrom(id, answer, start, 1);
    Session(opening.pos, 0, opening.gen, true)
  }

  /** What the closing canary leaves of a session that lived so far. */
  function ClosesAs(id: Ident, answer: nat -> Answer, end: Option<Session>): Option<State> {
    if end.None? then None
    else Some(if end.value.clean && Passes(id.liveness, answer, end.value.pos) then Proven else Assumed)
  }

  /** What a run with an identity settles on, from the wire at `start`: None where
      the session cannot be opened, or dies under a canary. */
  function SettlesOn(id: Ident, w: World, answer: nat -> Answer, start: nat, ps: seq<Pair>): Option<State>
    requires AllIn(w, ps)
  {
    if !SendablePath(id.liveness.path) || !SettledFrom(id, answer, start, 1).live then None
    else ClosesAs(id, answer, PairsFrom(id, w, answer, OpensAs(id, answer, start), ps))
  }

  lemma NoRowOfTheDead(w: World, answer: nat -> Answer, p: Pair)
    requires InWorld(w, p)
    ensures RowFrom(w, answer, None, p).None?
  {
  }

  lemma PairsStep(id: Ident, w: World, answer: nat -> Answer, s: Session, ps: seq<Pair>, p: Pair)
    requires AllIn(w, ps) && InWorld(w, p)
    ensures AllIn(w, ps + [p])
    ensures var before := PairsFrom(id, w, answer, s, ps);
      PairsFrom(id, w, answer, s, ps + [p]) == if before.None? then None else PairFrom(id, w, answer, before.value, p)
  {
    assert (ps + [p])[..|ps|] == ps;
  }

  /** A canary is due, and finds the session dead; a bridge that would not take the
      renewed credential says something else. */
  predicate FindsDead(id: Ident, answer: nat -> Answer, s: Session) {
    s.since >= id.every
    && var settled := SettledFrom(id, answer, s.pos, s.gen); !settled.live && !settled.lost
  }

  /** It lived through these pairs, and the canary behind them finds it dead. */
  predicate DeadBehind(id: Ident, w: World, answer: nat -> Answer, s: Session, ps: seq<Pair>)
    requires AllIn(w, ps)
  {
    var end := PairsFrom(id, w, answer, s, ps);
    end.Some? && FindsDead(id, answer, end.value)
  }

  /** The pass gets to check `j` of surface `i`, as far as the world goes. */
  ghost predicate Gets(w: World, i: nat, j: nat) {
    && i < |w.surfaces| && j < |w.checks| && i in w.chosen && i !in w.late && i !in w.heartbeatFails
    && Smooth(w, i) && forall k :: 0 <= k < j ==> !Stops(w, (i, k))
  }

  /** Somewhere the pass gets to, the session is found dead. */
  ghost predicate DeadInPass(id: Ident, w: World, answer: nat -> Answer, s: Session) {
    exists i: nat, j: nat :: DeadAt(id, w, answer, s, i, j)
  }

  ghost predicate DeadAt(id: Ident, w: World, answer: nat -> Answer, s: Session, i: nat, j: nat) {
    && Gets(w, i, j) && AllIn(w, Plan(w, i) + Block(i, j))
    && DeadBehind(id, w, answer, s, Plan(w, i) + Block(i, j))
  }

  /** A pair lived through was not one before which the session was found dead. */
  lemma LivedThrough(id: Ident, w: World, answer: nat -> Answer, s: Session, ps: seq<Pair>, p: Pair)
    requires AllIn(w, ps) && InWorld(w, p) && p.0 !in w.late
    ensures AllIn(w, ps + [p])
    ensures DeadBehind(id, w, answer, s, ps) ==> PairsFrom(id, w, answer, s, ps + [p]).None?
  {
    PairsStep(id, w, answer, s, ps, p);
  }

  /** The session comes to the `k`-th of these pairs, and no canary due there finds it
      dead. */
  predicate Survives(id: Ident, w: World, answer: nat -> Answer, s: Session, ps: seq<Pair>, k: nat)
    requires AllIn(w, ps) && k < |ps|
  {
    var before := PairsFrom(id, w, answer, s, ps[..k]);
    && before.Some?
    && (ps[k].0 in w.late || before.value.since < id.every
        || SettledFrom(id, answer, before.value.pos, before.value.gen).live)
  }

  lemma PairSurvives(id: Ident, w: World, answer: nat -> Answer, s: Session, ps: seq<Pair>)
    requires AllIn(w, ps) && ps != []
    ensures PairsFrom(id, w, answer, s, ps).Some? <==> Survives(id, w, answer, s, ps, |ps| - 1)
  {
  }

  lemma SurvivesAlike(id: Ident, w: World, answer: nat -> Answer, s: Session, ps: seq<Pair>, k: nat)
    requires AllIn(w, ps) && k < |ps| - 1
    ensures Survives(id, w, answer, s, ps, k) <==> Survives(id, w, answer, s, ps[..|ps| - 1], k)
  {
    assert ps[..|ps| - 1][..k] == ps[..k];
  }

  /** A session lives through some pairs exactly when every canary due before one of
      them, whose surface is in time, settles live. */
  lemma {:induction false} LivesExactlyWhen(id: Ident, w: World, answer: nat -> Answer, s: Session, ps: seq<Pair>)
    requires AllIn(w, ps)
    ensures PairsFrom(id, w, answer, s, ps).Some?
            <==> forall k :: 0 <= k < |ps| ==> Survives(id, w, answer, s, ps, k)
    decreases |ps|
  {
    if ps != [] {
      var n := |ps| - 1;
      LivesExactlyWhen(id, w, answer, s, ps[..n]);
      PairSurvives(id, w, answer, s, ps);
      hide PairsFrom, Survives;
      forall k | 0 <= k < n ensures Survives(id, w, answer, s, ps, k) <==> Survives(id, w, answer, s, ps[..n], k) {
        SurvivesAlike(id, w, answer, s, ps, k);
      }
    }
  }

  /** A session that died is not revived by what the run would have come to. */
  lemma {:induction false} DeadStaysDead(id: Ident, w: World, answer: nat -> Answer, s: Session,
                                          a: seq<Pair>, b: seq<Pair>)
    requires AllIn(w, a) && AllIn(w, b) && a <= b && PairsFrom(id, w, answer, s, a).None?
    ensures PairsFrom(id, w, answer, s, b).None?
    decreases |b|
  {
    if a == b {
    } else {
      DeadStaysDead(id, w, answer, s, a, b[..|b| - 1]);
    }
  }

  /** The checks of a surface reached too late ask nothing. */
  lemma {:induction false} LatePairs(id: Ident, w: World, answer: nat -> Answer, s: Session,
                                      done: seq<Pair>, i: nat, m: nat)
    requires AllIn(w, done) && i < |w.surfaces| && i in w.late && m <= |w.checks|
    ensures AllIn(w, done + Block(i, m))
    ensures PairsFrom(id, w, answer, s, done + Block(i, m)) == PairsFrom(id, w, answer, s, done)
  {
    hide PairsFrom;
    if m == 0 {
      assert done + Block(i, 0) == done;
    } else {
      LatePairs(id, w, answer, s, done, i, m - 1);
      BlockAppend(i, m - 1);
      assert done + Block(i, m) == done + Block(i, m - 1) + [(i, m - 1)];
      PairsStep(id, w, answer, s, done + Block(i, m - 1), (i, m - 1));
    }
  }
}
