/** `hx.run` over one engagement's store: statements that may each fail, and the
    lifecycle they carry. */
module Store {
  import opened Options
  import opened Tables
  import opened Blobs

  datatype Answer<T> = Done(value: T) | BadArgument | Broken

  /** A connection as a value: its committed tables, how many statements were put
      to it and how many ids were drawn for it. */
  datatype State = State(db: Db, ticks: nat, minted: nat)

  /** A connection: the committed tables, whether the n-th statement put to it
      raises, the ids `new_id` will draw, and the order a SELECT lists rows in. */
  class Store {
    const rules: Rules
    const blobs: BlobStore
    const fails: nat -> bool
    const ids: nat -> Id
    const listing: set<Id> -> seq<Id>
    var db: Db
    var ticks: nat
    var minted: nat
    ghost var given: map<Id, string>

    ghost predicate Lists() {
      forall s, k :: k in listing(s) <==> k in s
    }

    function Now(): State
      reads `db, `ticks, `minted
    {
      State(db, ticks, minted)
    }

    ghost predicate Valid()
      reads `db, `given, blobs`files
    {
      blobs.digest == rules.digest && Lists() && Coherent(rules, db, blobs.files, given)
    }

    constructor (rules: Rules, blobs: BlobStore, fails: nat -> bool, ids: nat -> Id, listing: set<Id> -> seq<Id>)
      requires blobs.digest == rules.digest && forall s, k :: k in listing(s) <==> k in s
      ensures this.rules == rules && this.blobs == blobs && Valid() && db == Db(map[], map[], map[], map[])
    {
      this.rules, this.blobs, this.fails, this.ids, this.listing := rules, blobs, fails, ids, listing;
      db := Db(map[], map[], map[], map[]);
      ticks, minted, given := 0, 0, map[];
    }

    method Statement() returns (ok: bool)
      modifies `ticks
      ensures ok <==> !fails(old(ticks))
      ensures ticks == old(ticks) + 1
    {
      ok := !fails(ticks);
      ticks := ticks + 1;
    }

    method NewId() returns (id: Id)
      modifies `minted
      ensures id == ids(old(minted)) && minted == old(minted) + 1
    {
      id := ids(minted);
      minted := minted + 1;
    }
  }

  // ---- what each statement of the lifecycle comes to ----

  const KINDS := {"browse", "crawl", "manual", "scan"}

  function OpenedFrom(conn: Store, s: State, kind: string, at: int): (Answer<Id>, State) {
    if kind !in KINDS then (BadArgument, s)
    else
      var id := conn.ids(s.minted);
      if conn.fails(s.ticks) || id in s.db.runs then (Broken, s.(ticks := s.ticks + 1, minted := s.minted + 1))
      else (Done(id), State(SetRun(s.db, id, Opened(kind, at)), s.ticks + 1, s.minted + 1))
  }

  function UpdatedFrom(conn: Store, s: State, r: Id, row: RunRow): (bool, State) {
    var ok := !conn.fails(s.ticks);
    (ok, State(if ok && r in s.db.runs then SetRun(s.db, r, row) else s.db, s.ticks + 1, s.minted))
  }

  /** `... AND kind=? AND status='running' ORDER BY started_us DESC LIMIT 1`. */
  function Pick(rows: seq<Id>, runs: map<Id, RunRow>, kind: string): (r: Option<Id>)
    requires forall i :: 0 <= i < |rows| ==> rows[i] in runs
    ensures r.Some? ==> r.value in rows
  {
    if rows == [] then None
    else
      var last := rows[|rows| - 1];
      var before := Pick(rows[..|rows| - 1], runs, kind);
      if Candidate(runs[last], kind) && (before.None? || runs[before.value].started < runs[last].started)
      then Some(last) else before
  }

  function NewestOf(conn: Store, runs: map<Id, RunRow>, kind: string): (r: Option<Id>)
    ensures r.Some? ==> r.value in runs
  {
    var rows := conn.listing(runs.Keys);
    if forall i :: 0 <= i < |rows| ==> rows[i] in runs then Pick(rows, runs, kind) else None
  }

  function CurrentFrom(conn: Store, s: State, kind: string, at: int): (Answer<Id>, State) {
    var asked := s.(ticks := s.ticks + 1);
    if conn.fails(s.ticks) then (Broken, asked)
    else
      var newest := NewestOf(conn, s.db.runs, kind);
      if newest.None? then OpenedFrom(conn, asked, kind, at)
      else
        var row := s.db.runs[newest.value];
        if IsLive(row, at) then (Done(newest.value), asked)
        else
          var ended := Ended(row, Completed, LastHeard(row), Some("idle"));
          var (ok, closed) := UpdatedFrom(conn, asked, newest.value, ended);
          if ok then OpenedFrom(conn, closed, kind, at) else (Broken, closed)
  }

  /** The statements from `from` up to `until` go through. */
  ghost predicate Works(conn: Store, from: nat, until: nat) {
    forall k :: from <= k < until ==> !conn.fails(k)
  }

  lemma OneMoreWorks(conn: Store, from: nat, until: nat)
    requires from <= until
    ensures Works(conn, from, until + 1) <==> Works(conn, from, until) && !conn.fails(until)
  {
  }

  lemma FewerWork(conn: Store, from: nat, until: nat, later: nat)
    requires until <= later && !Works(conn, from, until)
    ensures !Works(conn, from, later)
  {
  }

  /** A capture of this kind is given the run that is there. */
  predicate Reuses(conn: Store, s: State, kind: string, at: int) {
    var newest := NewestOf(conn, s.db.runs, kind);
    newest.Some? && IsLive(s.db.runs[newest.value], at)
  }

  /** How many statements `current_run` puts when all of them go through. */
  function CurrentCost(conn: Store, s: State, kind: string, at: int): nat {
    if Reuses(conn, s, kind, at) then 1 else if NewestOf(conn, s.db.runs, kind).None? then 2 else 3
  }

  /** Every statement that takes goes through, and the id drawn for a new run is
      new. */
  ghost predicate Currently(conn: Store, s: State, kind: string, at: int) {
    && Works(conn, s.ticks, s.ticks + CurrentCost(conn, s, kind, at))
    && (!Reuses(conn, s, kind, at) ==> conn.ids(s.minted) !in s.db.runs)
  }

  /** A run is found or opened exactly then. */
  lemma CurrentExactlyWhen(conn: Store, s: State, kind: string, at: int)
    requires kind in KINDS
    ensures var (r, z) := CurrentFrom(conn, s, kind, at);
      && (r.Done? <==> Currently(conn, s, kind, at))
      && (r.Done? ==> z.ticks == s.ticks + CurrentCost(conn, s, kind, at)
                      && z.minted == (if Reuses(conn, s, kind, at) then s.minted else s.minted + 1)
                      && r.value in z.db.runs)
      && s.ticks < z.ticks && s.minted <= z.minted <= s.minted + 1 && !r.BadArgument?
      && z.db.(runs := s.db.runs) == s.db
  {
    hide Pick, NewestOf;
    var n := CurrentCost(conn, s, kind, at);
    assert conn.fails(s.ticks) ==> !Works(conn, s.ticks, s.ticks + n);
    assert n > 1 && conn.fails(s.ticks + 1) ==> !Works(conn, s.ticks, s.ticks + n);
    assert n > 2 && conn.fails(s.ticks + 2) ==> !Works(conn, s.ticks, s.ticks + n);
  }

  /** A run is opened exactly when the kind is one, the INSERT goes through and the
      id drawn is new. */
  method OpenRun(conn: Store, kind: string, at: int) returns (r: Answer<Id>)
    requires conn.Valid()
    modifies conn`db, conn`ticks, conn`minted
    ensures (r, conn.Now()) == OpenedFrom(conn, old(conn.Now()), kind, at)
    ensures r.Done? <==>
      kind in KINDS && !conn.fails(old(conn.ticks)) && conn.ids(old(conn.minted)) !in old(conn.db.runs)
    ensures conn.Valid() && Advances(old(conn.db), conn.db)
    ensures r.BadArgument? <==> kind !in KINDS
    ensures RunsOnly(old(conn.db), conn.db)
    ensures r.Done? ==> r.value !in old(conn.db.runs) && conn.db == SetRun(old(conn.db), r.value, Opened(kind, at))
    ensures r.Done? ==> conn.db.runs[r.value] == RunRow(kind, Running, at, Some(at), None, None, 0, 0)
    ensures !r.Done? ==> conn.db == old(conn.db)
  {
    hide Coherent, Advances, RunsOnly, RunKept, Dropped;
    NothingMoves(conn.db);
    if kind !in KINDS {
      return BadArgument;
    }
    var id := conn.NewId();
    var ok := conn.Statement();
    if !ok || id in conn.db.runs {
      return Broken;
    }
    SetRunKeeps(conn.rules, conn.db, conn.blobs.files, conn.given, id, Opened(kind, at));
    conn.db := SetRun(conn.db, id, Opened(kind, at));
    r := Done(id);
  }

  /** An UPDATE of one run row, if it is there. */
  method UpdateRun(conn: Store, r: Id, row: RunRow) returns (ok: bool)
    requires conn.Valid()
    requires RunMayBe(conn.db, r, row)
    modifies conn`db, conn`ticks
    ensures (ok, conn.Now()) == UpdatedFrom(conn, old(conn.Now()), r, row) && (ok <==> !conn.fails(old(conn.ticks)))
    ensures conn.Valid() && Advances(old(conn.db), conn.db) && RunsOnly(old(conn.db), conn.db)
    ensures ok && r in old(conn.db.runs) ==> conn.db == SetRun(old(conn.db), r, row)
    ensures !ok || r !in old(conn.db.runs) ==> conn.db == old(conn.db)
  {
    hide Coherent, Advances, RunsOnly, RunKept, Dropped;
    NothingMoves(conn.db);
    ok := conn.Statement();
    if ok && r in conn.db.runs {
      SetRunKeeps(conn.rules, conn.db, conn.blobs.files, conn.given, r, row);
      conn.db := SetRun(conn.db, r, row);
    }
  }

  method Heartbeat(conn: Store, r: Id, at: int) returns (ok: bool)
    requires conn.Valid() && r in conn.db.runs
    modifies conn`db, conn`ticks
    ensures conn.Valid() && Advances(old(conn.db), conn.db) && RunsOnly(old(conn.db), conn.db)
    ensures (ok, conn.Now()) == UpdatedFrom(conn, old(conn.Now()), r, Beaten(old(conn.db).runs[r], at))
    ensures ok <==> !conn.fails(old(conn.ticks))
    ensures conn.db == if ok then SetRun(old(conn.db), r, Beaten(old(conn.db).runs[r], at)) else old(conn.db)
    // a running run is heard from at `at`, and nothing else of it moves
    ensures var was := old(conn.db).runs[r];
      conn.db.runs[r] == if ok && was.status == Running then was.(heartbeat := Some(at)) else was
    ensures ok ==> forall window: Option<nat>, now :: StaleBefore(now, window) <= at ==>
      !IsStale(conn.db.runs[r], StaleBefore(now, window))
    ensures Dropped(conn.db.runs) == Dropped(old(conn.db).runs)
  {
    hide Coherent, Advances, RunsOnly, Dropped;
    NothingMoves(conn.db);
    DroppedSet(conn.db.runs, r, Beaten(conn.db.runs[r], at));
    ok := UpdateRun(conn, r, Beaten(conn.db.runs[r], at));
  }

  method CloseRun(conn: Store, r: Id, at: int, status: RunStatus, reason: Option<string>) returns (ok: bool)
    requires conn.Valid() && r in conn.db.runs
    modifies conn`db, conn`ticks
    ensures conn.Valid() && Advances(old(conn.db), conn.db) && RunsOnly(old(conn.db), conn.db)
    ensures (ok, conn.Now()) == UpdatedFrom(conn, old(conn.Now()), r, Ended(old(conn.db).runs[r], status, at, reason))
    ensures (ok <==> !conn.fails(old(conn.ticks))) && conn.ticks == old(conn.ticks) + 1
    ensures var row := Ended(old(conn.db).runs[r], status, at, reason);
      conn.db == if ok then SetRun(old(conn.db), r, row) else old(conn.db)
    // a running run ends so, once; one that ended stands
    ensures var was := old(conn.db).runs[r];
      conn.db.runs[r] == if ok && was.status == Running
                         then was.(status := status, ended := Some(at), reason := reason) else was
  {
    hide Coherent, Advances, RunsOnly, Dropped;
    NothingMoves(conn.db);
    ok := UpdateRun(conn, r, Ended(conn.db.runs[r], status, at, reason));
  }

  /** A drop report adds to the run's total, and one that would not is refused. */
  method CountDrop(conn: Store, r: Id, n: int) returns (done: Answer<()>)
    requires conn.Valid() && r in conn.db.runs
    modifies conn`db, conn`ticks
    ensures conn.Valid() && Advances(old(conn.db), conn.db) && RunsOnly(old(conn.db), conn.db)
    ensures done.BadArgument? <==> n < 1
    ensures done.Done? <==> n >= 1 && !conn.fails(old(conn.ticks))
    ensures n >= 1 ==>
      var row := old(conn.db).runs[r];
      (done.Done?, conn.Now()) == UpdatedFrom(conn, old(conn.Now()), r, row.(dropped := row.dropped + n))
    ensures done.Done? ==>
      var row := old(conn.db).runs[r];
      conn.db == SetRun(old(conn.db), r, row.(dropped := row.dropped + n))
      && Dropped(conn.db.runs) == Dropped(old(conn.db).runs) + n
    ensures !done.Done? ==> conn.db == old(conn.db)
  {
    hide Coherent, Advances, RunsOnly, Dropped;
    NothingMoves(conn.db);
    if n < 1 {
      return BadArgument;
    }
    var row := conn.db.runs[r];
    DroppedSet(conn.db.runs, r, row.(dropped := row.dropped + n));
    var ok := UpdateRun(conn, r, row.(dropped := row.dropped + n));
    done := if ok then Done(()) else Broken;
  }

  method Newest(conn: Store, kind: string) returns (r: Option<Id>)
    requires conn.Valid()
    ensures r == NewestOf(conn, conn.db.runs, kind)
    ensures r.Some? ==> r.value in conn.db.runs && Candidate(conn.db.runs[r.value], kind)
    ensures r.None? ==> forall k <- conn.db.runs :: !Candidate(conn.db.runs[k], kind)
    ensures r.Some? ==> forall k <- conn.db.runs :: Candidate(conn.db.runs[k], kind) ==>
      conn.db.runs[k].started <= conn.db.runs[r.value].started
    ensures r.Some? ==> conn.db.runs[r.value].kind == kind && conn.db.runs[r.value].status == Running
    ensures r.None? ==> forall k <- conn.db.runs :: conn.db.runs[k].kind != kind || conn.db.runs[k].status != Running
  {
    hide Coherent;
    var rows := conn.listing(conn.db.runs.Keys);
    r := None;
    for i := 0 to |rows|
      invariant r == Pick(rows[..i], conn.db.runs, kind)
      invariant r.Some? ==> r.value in conn.db.runs && Candidate(conn.db.runs[r.value], kind)
      invariant forall j :: 0 <= j < i && Candidate(conn.db.runs[rows[j]], kind) ==>
        r.Some? && conn.db.runs[rows[j]].started <= conn.db.runs[r.value].started
    {
      var row := conn.db.runs[rows[i]];
      assert rows[..i + 1][..i] == rows[..i];
      if Candidate(row, kind) && (r.None? || conn.db.runs[r.value].started < row.started) {
        r := Some(rows[i]);
      }
    }
    assert rows[..|rows|] == rows;
  }

  predicate Candidate(r: RunRow, kind: string) {
    r.kind == kind && r.status.Running?
  }

  predicate IsOf(r: RunRow, kind: string) {
    r.kind == kind && r.status == Running
  }

  /** No running run of the kind started later. */
  predicate LastStarted(runs: map<Id, RunRow>, kind: string, r: Id) {
    r in runs && IsOf(runs[r], kind) && forall k <- runs :: IsOf(runs[k], kind) ==> runs[k].started <= runs[r].started
  }

  function Heard(r: RunRow): int {
    if r.heartbeat.Some? then r.heartbeat.value else r.started
  }

  /** None of the kind is running, or the last to start has not been heard of for a
      quarter of an hour. */
  predicate NoneToUse(runs: map<Id, RunRow>, kind: string, at: int) {
    || (forall k <- runs :: !IsOf(runs[k], kind))
    || (exists k <- runs :: LastStarted(runs, kind, k) && at - Heard(runs[k]) > 900_000_000)
  }

  /** The run a capture of this kind belongs to. Whatever is returned is running,
      is of the kind, and is not one the reaper would end at the same instant; an
      idle predecessor is ended as of when it was last heard. When there is one to
      return, `CurrentExactlyWhen` says. */
  method CurrentRun(conn: Store, kind: string, at: int) returns (r: Answer<Id>)
    requires conn.Valid()
    modifies conn`db, conn`ticks, conn`minted
    ensures conn.Valid() && Advances(old(conn.db), conn.db) && RunsOnly(old(conn.db), conn.db)
    ensures (r, conn.Now()) == CurrentFrom(conn, old(conn.Now()), kind, at)
    ensures kind in KINDS ==> (r.Done? <==> Currently(conn, old(conn.Now()), kind, at))
    ensures r.Done? ==>
      && r.value in conn.db.runs && Candidate(conn.db.runs[r.value], kind) && IsLive(conn.db.runs[r.value], at)
      && !IsStale(conn.db.runs[r.value], StaleBefore(at, None))
    ensures r.Done? && r.value in old(conn.db.runs) ==> conn.db == old(conn.db)
    ensures r.Done? && r.value !in old(conn.db.runs) ==>
      forall k <- old(conn.db.runs) :: conn.db.runs[k] == old(conn.db.runs)[k]
        || (!IsLive(old(conn.db.runs)[k], at) && Candidate(old(conn.db.runs)[k], kind)
            && conn.db.runs[k] == Ended(old(conn.db.runs)[k], Completed, LastHeard(old(conn.db.runs)[k]), Some("idle")))
    // the one that is there, when the last to start was heard of in the last quarter of an hour; else a new one
    ensures r.Done? ==> conn.db.runs[r.value].kind == kind && conn.db.runs[r.value].status == Running
    ensures r.Done? ==>
      if r.value in old(conn.db.runs) then
        LastStarted(old(conn.db.runs), kind, r.value) && at - Heard(old(conn.db.runs)[r.value]) <= 900_000_000
      else NoneToUse(old(conn.db.runs), kind, at)
    ensures Dropped(conn.db.runs) == Dropped(old(conn.db.runs))
    ensures r.BadArgument? ==> kind !in KINDS
  {
    hide Coherent, Advances, RunsOnly, Dropped, Pick, NewestOf, Currently, CurrentCost, Reuses;
    if kind in KINDS {
      CurrentExactlyWhen(conn, conn.Now(), kind, at);
    }
    NothingMoves(conn.db);
    ghost var was := conn.db;
    var ok := conn.Statement();
    if !ok {
      return Broken;
    }
    var newest := Newest(conn, kind);
    if newest.Some? {
      var row := conn.db.runs[newest.value];
      if at - LastHeard(row) <= IDLE_CLOSE {
        return Done(newest.value);
      }
      DroppedSet(conn.db.runs, newest.value, Ended(row, Completed, LastHeard(row), Some("idle")));
      ok := CloseRun(conn, newest.value, LastHeard(row), Completed, Some("idle"));
      if !ok {
        return Broken;
      }
    }
    ghost var mid := conn.db;
    r := OpenRun(conn, kind, at);
    if r.Done? {
      DroppedSet(mid.runs, r.value, Opened(kind, at));
    }
    AdvancesOnward(was, mid, conn.db);
    RunsOnlyOnward(was, mid, conn.db);
  }

  function StaleRuns(runs: map<Id, RunRow>, before: int): set<Id> {
    set r | r in runs && IsStale(runs[r], before)
  }

  lemma Fewer(some: set<Id>, all: set<Id>, r: Id)
    requires some <= all && r in all && r !in some
    ensures |some| < |all| && |some + {r}| == |some| + 1 && some + {r} <= all
  {
    assert all == some + (all - some) && r in all - some;
  }

  /** `reaped` of the runs are resolved, and no other is touched. */
  predicate ReapedTo(was: map<Id, RunRow>, now: map<Id, RunRow>, at: int, reaped: set<Id>) {
    && now.Keys == was.Keys
    && forall r <- was :: now[r] == if r in reaped then Resolved(was[r], at) else was[r]
  }

  const WENT_STALE :=
    Some("heartbeat went stale: the harness stopped without closing this run, so its coverage is incomplete")

  function Resolved(row: RunRow, at: int): RunRow {
    Ended(row, Errored, at, WENT_STALE)
  }

  lemma ReapedStep(was: map<Id, RunRow>, now: map<Id, RunRow>, at: int, before: int, reaped: set<Id>, r: Id)
    requires ReapedTo(was, now, at, reaped) && r in was && reaped <= StaleRuns(was, before)
    ensures IsStale(now[r], before) <==> r in StaleRuns(was, before) && r !in reaped
    ensures r !in reaped ==> ReapedTo(was, now[r := Resolved(now[r], at)], at, reaped + {r})
  {
  }

  lemma ReapedMeans(was: map<Id, RunRow>, now: map<Id, RunRow>, at: int, before: int, reaped: set<Id>)
    requires ReapedTo(was, now, at, reaped) && reaped <= StaleRuns(was, before)
    ensures forall r <- now :: if r in reaped then now[r].status == Errored && now[r].ended == Some(at)
                               else now[r] == was[r]
    ensures reaped == StaleRuns(was, before) ==> forall r <- now :: !IsStale(now[r], before)
  {
  }

  /** Since `was`, a valid store has changed in its runs and nowhere else. */
  ghost predicate OnlyRuns(conn: Store, was: Db)
    reads conn, conn.blobs
  {
    conn.Valid() && Advances(was, conn.db) && RunsOnly(was, conn.db)
  }

  /** How far a pass over the stale runs has come. */
  ghost predicate Reaping(conn: Store, was: Db, start: nat, at: int, before: int, reaped: set<Id>)
    reads conn, conn.blobs
  {
    && OnlyRuns(conn, was)
    && conn.ticks == start + 1 + |reaped| && Works(conn, start, conn.ticks)
    && ReapedTo(was.runs, conn.db.runs, at, reaped) && reaped <= StaleRuns(was.runs, before)
  }

  /** The UPDATE of one stale run. */
  method Resolve(conn: Store, r: Id, at: int, ghost was: Db) returns (ok: bool)
    requires OnlyRuns(conn, was) && r in conn.db.runs
    modifies conn`db, conn`ticks
    ensures OnlyRuns(conn, was)
    ensures (ok <==> !conn.fails(old(conn.ticks))) && conn.ticks == old(conn.ticks) + 1
    ensures conn.db.runs == if ok then old(conn.db).runs[r := Resolved(old(conn.db).runs[r], at)] else old(conn.db).runs
    ensures !ok ==> conn.db == old(conn.db)
  {
    hide Coherent, Advances, RunsOnly, UpdatedFrom, Ended;
    ghost var mid := conn.db;
    ok := CloseRun(conn, r, at, Errored, WENT_STALE);
    AdvancesOnward(was, mid, conn.db);
    RunsOnlyOnward(was, mid, conn.db);
  }

  method ReapOne(conn: Store, r: Id, at: int, before: int, reaped: set<Id>, ghost was: Db, ghost start: nat)
    returns (ok: bool, now: set<Id>)
    requires Reaping(conn, was, start, at, before, reaped) && r in was.runs
    modifies conn`db, conn`ticks
    ensures ok ==> Reaping(conn, was, start, at, before, now)
    ensures ok ==> now == if r in StaleRuns(was.runs, before) && r !in reaped then reaped + {r} else reaped
    ensures !ok ==> now == reaped && conn.db == old(conn.db)
                    && !Works(conn, start, start + 1 + |StaleRuns(was.runs, before)|)
  {
    ghost var stale := StaleRuns(was.runs, before);
    ReapedStep(was.runs, conn.db.runs, at, before, reaped, r);
    assert r in conn.db.runs;
    hide OnlyRuns, Works, Resolved, ReapedTo, StaleRuns, IsStale, Ended, UpdatedFrom, WENT_STALE;
    now := reaped;
    if !IsStale(conn.db.runs[r], before) {
      return true, reaped;
    }
    Fewer(reaped, stale, r);
    OneMoreWorks(conn, start, conn.ticks);
    ok := Resolve(conn, r, at, was);
    if ok {
      now := reaped + {r};
    } else {
      FewerWork(conn, start, conn.ticks, start + 1 + |stale|);
    }
  }

  /** Every running run whose harness died is resolved to `error`, and no other
      run is touched; none is left that a second pass would end. It gets to the end
      exactly when the SELECT and one UPDATE a stale run go through. */
  method ReapStale(conn: Store, at: int, window: Option<nat>) returns (ok: bool, reaped: set<Id>)
    requires conn.Valid()
    modifies conn`db, conn`ticks
    ensures conn.Valid() && Advances(old(conn.db), conn.db) && RunsOnly(old(conn.db), conn.db)
    ensures var stale := StaleRuns(old(conn.db.runs), StaleBefore(at, window));
      ok <==> Works(conn, old(conn.ticks), old(conn.ticks) + 1 + |stale|)
    ensures ok ==> reaped == StaleRuns(old(conn.db.runs), StaleBefore(at, window))
    ensures reaped <= StaleRuns(old(conn.db.runs), StaleBefore(at, window))
    ensures conn.db.runs.Keys == old(conn.db.runs).Keys
    ensures forall r <- conn.db.runs ::
      if r in reaped then conn.db.runs[r].status == Errored && conn.db.runs[r].ended == Some(at)
      else conn.db.runs[r] == old(conn.db.runs)[r]
    ensures ok ==> forall r <- conn.db.runs :: !IsStale(conn.db.runs[r], StaleBefore(at, window))
  {
    var before := StaleBefore(at, window);
    ghost var was, start := conn.db, conn.ticks;
    ghost var stale := StaleRuns(was.runs, before);
    assert Works(conn, start, start) && ReapedTo(was.runs, was.runs, at, {}) && Covers([], stale, {});
    ReapedMeans(was.runs, was.runs, at, before, {});
    hide Coherent, Advances, RunsOnly, Dropped, Works, StaleBefore, ReapedTo, StaleRuns, IsStale, Ended, Covers;
    NothingMoves(conn.db);
    OneMoreWorks(conn, start, start);
    ok := conn.Statement();
    reaped := {};
    if !ok {
      FewerWork(conn, start, start + 1, start + 1 + |stale|);
      return;
    }
    var rows := conn.listing(conn.db.runs.Keys);
    for i := 0 to |rows|
      invariant Reaping(conn, was, start, at, before, reaped) && Covers(rows[..i], stale, reaped)
    {
      CoversStep(rows, i, stale, reaped);
      ok, reaped := ReapOne(conn, rows[i], at, before, reaped, was, start);
      if !ok {
        ReapedMeans(was.runs, conn.db.runs, at, before, reaped);
        return;
      }
    }
    AllVisited(conn, rows, was.runs, before, reaped);
    ReapedMeans(was.runs, conn.db.runs, at, before, reaped);
    ok := true;
  }

  predicate Covers(rows: seq<Id>, stale: set<Id>, reaped: set<Id>) {
    forall r <- rows :: r in stale ==> r in reaped
  }

  lemma CoversStep(rows: seq<Id>, i: nat, stale: set<Id>, reaped: set<Id>)
    requires i < |rows| && Covers(rows[..i], stale, reaped)
    ensures rows[i] !in stale || rows[i] in reaped ==> Covers(rows[..i + 1], stale, reaped)
    ensures Covers(rows[..i + 1], stale, reaped + {rows[i]})
  {
    assert rows[..i + 1] == rows[..i] + [rows[i]];
  }

  lemma AllVisited(conn: Store, rows: seq<Id>, was: map<Id, RunRow>, before: int, reaped: set<Id>)
    requires conn.Lists() && rows == conn.listing(was.Keys)
    requires reaped <= StaleRuns(was, before)
    requires Covers(rows[..|rows|], StaleRuns(was, before), reaped)
    ensures reaped == StaleRuns(was, before)
  {
    forall r | r in StaleRuns(was, before) ensures r in reaped {
      assert r in rows && rows[..|rows|] == rows;
    }
  }
}
