/** The tables two writers share, one statement at a time, and what must be true
    of them after every one: `hx.run`, `hx.capture`, `hx.issue`, `hx.store.records`. */
module Tables {
  import opened Options

  type Id = string

  datatype RunStatus = Running | Completed | Aborted | Errored

  datatype RunRow = RunRow(
    kind: string, status: RunStatus, started: int, heartbeat: Option<int>, ended: Option<int>,
    reason: Option<string>, issued: nat, dropped: nat)

  datatype SurfaceKey = SurfaceKey(
    verb: string, scheme: string, host: string, port: int, template: string, queryKeys: string)

  datatype ExchangeRow = ExchangeRow(
    run: Id, via: string, outcome: string, verb: string, url: string, status: Option<int>,
    reqBlob: Option<string>, respBlob: Option<string>, surface: Option<Id>)

  datatype SurfaceRow = SurfaceRow(key: SurfaceKey, discoveredBy: string, firstSeen: Id, lastSeen: Id, exemplar: Id)

  datatype DenialRow = DenialRow(run: Id, kind: string, verb: string, url: string, via: string)

  datatype Db = Db(
    runs: map<Id, RunRow>, exchanges: map<Id, ExchangeRow>, surfaces: map<Id, SurfaceRow>,
    denials: map<Id, DenialRow>)

  type Files = map<string, seq<int>>

  /** What the writers are built over: the blob digest, the normaliser, which
      refuses some urls, and the redaction every stored url goes through. */
  datatype Rules = Rules(
    digest: seq<int> -> string, normalise: (string, string) -> Option<SurfaceKey>, redact: string -> string)

  const VIA_VALUES := {"proxy", "send", "crawl"}

  /** The egress point that found a surface. */
  function DiscoveredBy(via: string): string {
    if via == "send" then "agent" else via
  }

  // ---- run lifecycle ----

  const IDLE_CLOSE: int := 15 * 60 * 1_000_000

  function LastHeard(r: RunRow): int {
    if r.heartbeat.Some? then r.heartbeat.value else r.started
  }

  function StaleBefore(now: int, window: Option<nat>): int {
    now - if window.Some? then window.value else IDLE_CLOSE * 2
  }

  predicate IsStale(r: RunRow, before: int) {
    r.status.Running? && LastHeard(r) < before
  }

  predicate IsLive(r: RunRow, at: int) {
    r.status.Running? && at - LastHeard(r) <= IDLE_CLOSE
  }

  /** With default windows, no instant finds a run both live to a capture and dead
      to the reaper. */
  lemma LiveIsNotStale(r: RunRow, at: int)
    ensures !(IsLive(r, at) && IsStale(r, StaleBefore(at, None)))
  {
  }

  /** A run is dead to the reaper when it is running and was last heard of, or, never
      having been, started, longer ago than the window: the one given, or half an
      hour. */
  lemma StaleExactlyWhen(r: RunRow, now: int, window: Option<nat>)
    ensures IsStale(r, StaleBefore(now, window)) <==>
      && r.status == Running
      && now - (if r.heartbeat.Some? then r.heartbeat.value else r.started)
         > (if window.Some? then window.value else 1_800_000_000)
  {
  }

  /** And live to a capture when that is no longer ago than a quarter of an hour. */
  lemma LiveExactlyWhen(r: RunRow, at: int)
    ensures IsLive(r, at) <==>
      && r.status == Running
      && at - (if r.heartbeat.Some? then r.heartbeat.value else r.started) <= 900_000_000
  {
  }

  function Opened(kind: string, at: int): RunRow {
    RunRow(kind, Running, at, Some(at), None, None, 0, 0)
  }

  /** An UPDATE guarded on `status='running'`. */
  function Ended(r: RunRow, status: RunStatus, at: int, reason: Option<string>): RunRow {
    if r.status.Running? then r.(status := status, ended := Some(at), reason := reason) else r
  }

  function Beaten(r: RunRow, at: int): RunRow {
    if r.status.Running? then r.(heartbeat := Some(at)) else r
  }

  /** A heartbeat at `at` keeps a running run from every reaper that cuts off no later;
      a run that ended hears no more. */
  lemma BeatenIsHeard(r: RunRow, at: int, before: int)
    ensures before <= at ==> !IsStale(Beaten(r, at), before)
    ensures r.status != Running ==> Beaten(r, at) == r
    ensures r.status == Running ==> Beaten(r, at) == r.(heartbeat := Some(at))
  {
  }

  function SetRun(db: Db, r: Id, row: RunRow): Db {
    db.(runs := db.runs[r := row])
  }

  // ---- what only ever grows ----

  /** What no later statement may take back from a run. */
  predicate RunKept(was: RunRow, now: RunRow) {
    && now.kind == was.kind && now.started == was.started
    && was.issued <= now.issued && was.dropped <= now.dropped
    && (!was.status.Running? ==> now.status == was.status && now.ended == was.ended && now.reason == was.reason)
  }

  predicate SurfaceKept(was: SurfaceRow, now: SurfaceRow) {
    now.key == was.key && now.discoveredBy == was.discoveredBy && now.firstSeen == was.firstSeen
    && now.exemplar == was.exemplar
  }

  /** The store only learns: no row goes, a run that ended stays as it ended, a
      counter never falls, and of a surface only `last_seen_run` moves. */
  ghost predicate Advances(was: Db, now: Db) {
    && (forall r :: r in was.runs ==> r in now.runs && RunKept(was.runs[r], now.runs[r]))
    && (forall x :: x in was.exchanges ==> x in now.exchanges && now.exchanges[x] == was.exchanges[x])
    && (forall s :: s in was.surfaces ==> s in now.surfaces && SurfaceKept(was.surfaces[s], now.surfaces[s]))
    && (forall d :: d in was.denials ==> d in now.denials && now.denials[d] == was.denials[d])
  }

  lemma AdvancesOnward(a: Db, b: Db, c: Db)
    requires Advances(a, b) && Advances(b, c)
    ensures Advances(a, c)
  {
    forall r | r in a.runs ensures r in c.runs && RunKept(a.runs[r], c.runs[r]) {
      assert RunKept(a.runs[r], b.runs[r]) && RunKept(b.runs[r], c.runs[r]);
    }
    forall s | s in a.surfaces ensures s in c.surfaces && SurfaceKept(a.surfaces[s], c.surfaces[s]) {
      assert SurfaceKept(a.surfaces[s], b.surfaces[s]) && SurfaceKept(b.surfaces[s], c.surfaces[s]);
    }
  }

  // ---- coherence ----

  function IssuedBy(exchanges: map<Id, ExchangeRow>, r: Id): set<Id> {
    set x | x in exchanges && exchanges[x].run == r
  }

  predicate Resolves(rules: Rules, files: Files, ref: Option<string>) {
    ref.Some? ==> ref.value in files && rules.digest(files[ref.value]) == ref.value
  }

  /** The reference names this body, and what is under it resolves; an empty body has
      none. */
  predicate Names(rules: Rules, files: Files, ref: Option<string>, body: seq<int>) {
    Resolves(rules, files, ref) && ref == if body == [] then None else Some(rules.digest(body))
  }

  /** An empty body has no blob; and unless two bodies share a digest, the blob under
      the reference of another is that body. */
  lemma NamedIsThere(rules: Rules, files: Files, ref: Option<string>, body: seq<int>)
    requires Names(rules, files, ref, body)
    requires forall other :: rules.digest(other) == rules.digest(body) ==> other == body
    ensures ref.None? <==> body == []
    ensures ref.Some? ==> ref.value in files && files[ref.value] == body
  {
  }

  /** `given[x]` is the url the writer of `x` was handed, before redaction. */
  predicate ExchangeOk(rules: Rules, db: Db, files: Files, given: map<Id, string>, x: Id)
    requires x in db.exchanges
  {
    var e := db.exchanges[x];
    && e.run in db.runs && e.via in VIA_VALUES
    && x in given && e.url == rules.redact(given[x])
    && e.surface.Some? && e.surface.value in db.surfaces
    && rules.normalise(e.verb, given[x]) == Some(db.surfaces[e.surface.value].key)
    && Resolves(rules, files, e.reqBlob) && Resolves(rules, files, e.respBlob)
  }

  predicate SurfaceOk(db: Db, s: Id)
    requires s in db.surfaces
  {
    var row := db.surfaces[s];
    && row.firstSeen in db.runs && row.lastSeen in db.runs
    && row.exemplar in db.exchanges && db.exchanges[row.exemplar].surface == Some(s)
    && row.discoveredBy == DiscoveredBy(db.exchanges[row.exemplar].via)
  }

  predicate RunOk(db: Db, r: Id)
    requires r in db.runs
  {
    db.runs[r].issued == |IssuedBy(db.exchanges, r)|
  }

  predicate UniqueKeys(surfaces: map<Id, SurfaceRow>) {
    forall s, t :: s in surfaces && t in surfaces && surfaces[s].key == surfaces[t].key ==> s == t
  }

  ghost predicate Coherent(rules: Rules, db: Db, files: Files, given: map<Id, string>) {
    && (forall x {:trigger ExchangeOk(rules, db, files, given, x)} ::
          x in db.exchanges ==> ExchangeOk(rules, db, files, given, x))
    && (forall s {:trigger SurfaceOk(db, s)} :: s in db.surfaces ==> SurfaceOk(db, s))
    && UniqueKeys(db.surfaces)
    && (forall r {:trigger RunOk(db, r)} :: r in db.runs ==> RunOk(db, r))
    && (forall d :: d in db.denials ==> db.denials[d].run in db.runs)
  }

  /** Exchanges and surfaces stand, no run has gone, and none counts an issue it did
      not make. */
  predicate RunsStand(was: Db, now: Db) {
    && now.exchanges == was.exchanges && now.surfaces == was.surfaces
    && (forall r <- was.runs :: r in now.runs && now.runs[r].issued == was.runs[r].issued)
    && (forall r <- now.runs :: r !in was.runs ==> now.runs[r].issued == 0)
  }

  /** Only runs have changed. */
  predicate RunsOnly(was: Db, now: Db) {
    RunsStand(was, now) && now.denials == was.denials
  }

  lemma StandingExchange(rules: Rules, was: Db, now: Db, files: Files, given: map<Id, string>, x: Id)
    requires RunsStand(was, now) && x in was.exchanges && ExchangeOk(rules, was, files, given, x)
    ensures ExchangeOk(rules, now, files, given, x)
  {
  }

  lemma StandingSurface(was: Db, now: Db, s: Id)
    requires RunsStand(was, now) && s in was.surfaces && SurfaceOk(was, s)
    ensures SurfaceOk(now, s)
  {
  }

  lemma StandingRun(was: Db, now: Db, r: Id)
    requires RunsStand(was, now) && r in now.runs
    requires if r in was.runs then RunOk(was, r) else forall x <- was.exchanges :: was.exchanges[x].run != r
    ensures RunOk(now, r)
  {
    if r !in was.runs {
      assert IssuedBy(now.exchanges, r) == {};
    }
  }

  lemma RunsInPlace(rules: Rules, db: Db, files: Files, given: map<Id, string>, x: Id)
    requires x in db.exchanges && ExchangeOk(rules, db, files, given, x)
    ensures db.exchanges[x].run in db.runs
  {
  }

  lemma RunsStandKeeps(rules: Rules, was: Db, now: Db, files: Files, given: map<Id, string>)
    requires Coherent(rules, was, files, given) && RunsStand(was, now)
    requires forall d :: d in now.denials ==> now.denials[d].run in now.runs
    ensures Coherent(rules, now, files, given)
  {
    hide UniqueKeys, ExchangeOk, SurfaceOk, RunOk;
    forall x | x in now.exchanges ensures ExchangeOk(rules, now, files, given, x) {
      StandingExchange(rules, was, now, files, given, x);
    }
    forall s | s in now.surfaces ensures SurfaceOk(now, s) {
      StandingSurface(was, now, s);
    }
    forall r | r in now.runs ensures RunOk(now, r) {
      forall x | x in was.exchanges ensures was.exchanges[x].run in was.runs {
        RunsInPlace(rules, was, files, given, x);
      }
      StandingRun(was, now, r);
    }
  }

  /** One run row inserted, or updated as a later statement may. */
  predicate RunMayBe(db: Db, r: Id, row: RunRow) {
    if r in db.runs then RunKept(db.runs[r], row) && row.issued == db.runs[r].issued else row.issued == 0
  }

  lemma DenialsIn(rules: Rules, db: Db, files: Files, given: map<Id, string>)
    requires Coherent(rules, db, files, given)
    ensures forall d :: d in db.denials ==> db.denials[d].run in db.runs
  {
    hide UniqueKeys, ExchangeOk, SurfaceOk, RunOk;
  }

  lemma SetRunKeeps(rules: Rules, db: Db, files: Files, given: map<Id, string>, r: Id, row: RunRow)
    requires Coherent(rules, db, files, given) && RunMayBe(db, r, row)
    ensures Coherent(rules, SetRun(db, r, row), files, given)
    ensures Advances(db, SetRun(db, r, row)) && RunsOnly(db, SetRun(db, r, row))
  {
    hide Coherent;
    DenialsIn(rules, db, files, given);
    RunsStandKeeps(rules, db, SetRun(db, r, row), files, given);
  }

  lemma RunsOnlyOnward(a: Db, b: Db, c: Db)
    requires RunsOnly(a, b) && RunsOnly(b, c)
    ensures RunsOnly(a, c)
  {
  }

  lemma NothingMoves(db: Db)
    ensures Advances(db, db) && RunsOnly(db, db)
  {
  }

  /** Blobs may be added, and one that did not resolve repaired. */
  predicate BlobsKept(rules: Rules, was: Files, now: Files) {
    forall d <- was :: rules.digest(was[d]) == d ==> d in now && rules.digest(now[d]) == d
  }

  lemma BlobsKeptExchange(rules: Rules, db: Db, was: Files, now: Files, given: map<Id, string>, x: Id)
    requires BlobsKept(rules, was, now) && x in db.exchanges && ExchangeOk(rules, db, was, given, x)
    ensures ExchangeOk(rules, db, now, given, x)
  {
  }

  lemma BlobsKeptKeeps(rules: Rules, db: Db, was: Files, now: Files, given: map<Id, string>)
    requires Coherent(rules, db, was, given) && BlobsKept(rules, was, now)
    ensures Coherent(rules, db, now, given)
  {
    hide UniqueKeys, ExchangeOk, SurfaceOk, RunOk;
    forall x | x in db.exchanges ensures ExchangeOk(rules, db, now, given, x) {
      BlobsKeptExchange(rules, db, was, now, given, x);
    }
  }

  /** The exchange transaction as one step: the row, the run's count, the surface
      under `s`, new or touched, and the back-reference. */
  function Committed(db: Db, x: Id, row: ExchangeRow, key: SurfaceKey, s: Id): Db
    requires row.run in db.runs
  {
    var run := db.runs[row.run];
    var surface :=
      if s in db.surfaces then db.surfaces[s].(lastSeen := row.run)
      else SurfaceRow(key, DiscoveredBy(row.via), row.run, row.run, x);
    Db(db.runs[row.run := run.(issued := run.issued + 1)],
       db.exchanges[x := row.(surface := Some(s))],
       db.surfaces[s := surface], db.denials)
  }

  /** `s` is the surface that has the key, or a new id when none has. */
  predicate SurfaceFor(db: Db, key: SurfaceKey, s: Id) {
    if s in db.surfaces then db.surfaces[s].key == key
    else forall t <- db.surfaces :: db.surfaces[t].key != key
  }

  lemma CommittedCounts(exchanges: map<Id, ExchangeRow>, x: Id, row: ExchangeRow, r: Id)
    requires x !in exchanges
    ensures |IssuedBy(exchanges[x := row], r)| == |IssuedBy(exchanges, r)| + if row.run == r then 1 else 0
  {
    var was, now := IssuedBy(exchanges, r), IssuedBy(exchanges[x := row], r);
    forall y ensures y in now <==> y in was || (y == x && row.run == r) {
    }
    assert now == if row.run == r then was + {x} else was;
  }

  /** What the transaction is entered with. */
  predicate MayCommit(rules: Rules, db: Db, files: Files, x: Id, row: ExchangeRow, key: SurfaceKey, s: Id,
                      url: string)
  {
    && row.run in db.runs && x !in db.exchanges && row.via in VIA_VALUES && SurfaceFor(db, key, s)
    && row.url == rules.redact(url) && rules.normalise(row.verb, url) == Some(key)
    && Resolves(rules, files, row.reqBlob) && Resolves(rules, files, row.respBlob)
  }

  lemma CommittedExchange(rules: Rules, db: Db, files: Files, given: map<Id, string>,
                          x: Id, row: ExchangeRow, key: SurfaceKey, s: Id, url: string, y: Id)
    requires MayCommit(rules, db, files, x, row, key, s, url)
    requires y == x || (y in db.exchanges && ExchangeOk(rules, db, files, given, y))
    ensures ExchangeOk(rules, Committed(db, x, row, key, s), files, given[x := url], y)
  {
  }

  lemma CommittedSurface(rules: Rules, db: Db, files: Files, x: Id, row: ExchangeRow, key: SurfaceKey,
                         s: Id, url: string, t: Id)
    requires MayCommit(rules, db, files, x, row, key, s, url)
    requires if t in db.surfaces then SurfaceOk(db, t) else t == s
    ensures SurfaceOk(Committed(db, x, row, key, s), t)
  {
  }

  lemma UniqueAfter(surfaces: map<Id, SurfaceRow>, s: Id, row: SurfaceRow)
    requires UniqueKeys(surfaces)
    requires if s in surfaces then surfaces[s].key == row.key else forall t <- surfaces :: surfaces[t].key != row.key
    ensures UniqueKeys(surfaces[s := row])
  {
  }

  lemma CommittedRun(rules: Rules, db: Db, files: Files, x: Id, row: ExchangeRow, key: SurfaceKey,
                     s: Id, url: string, r: Id)
    requires MayCommit(rules, db, files, x, row, key, s, url)
    requires r in db.runs && RunOk(db, r)
    ensures RunOk(Committed(db, x, row, key, s), r)
  {
    CommittedCounts(db.exchanges, x, row.(surface := Some(s)), r);
  }

  /** The transaction keeps every clause of coherence, and takes nothing back. */
  lemma CommittedKeeps(rules: Rules, db: Db, files: Files, given: map<Id, string>,
                       x: Id, row: ExchangeRow, key: SurfaceKey, s: Id, url: string)
    requires Coherent(rules, db, files, given) && MayCommit(rules, db, files, x, row, key, s, url)
    ensures Coherent(rules, Committed(db, x, row, key, s), files, given[x := url])
    ensures Advances(db, Committed(db, x, row, key, s))
  {
    hide UniqueKeys, Resolves, ExchangeOk, SurfaceOk, RunOk;
    var now := Committed(db, x, row, key, s);
    forall y | y in now.exchanges ensures ExchangeOk(rules, now, files, given[x := url], y) {
      CommittedExchange(rules, db, files, given, x, row, key, s, url, y);
    }
    forall t | t in now.surfaces ensures SurfaceOk(now, t) {
      CommittedSurface(rules, db, files, x, row, key, s, url, t);
    }
    UniqueAfter(db.surfaces, s, now.surfaces[s]);
    forall r | r in now.runs ensures RunOk(now, r) {
      CommittedRun(rules, db, files, x, row, key, s, url, r);
    }
    CommittedAdvances(rules, db, files, x, row, key, s, url);
  }

  lemma CommittedAdvances(rules: Rules, db: Db, files: Files, x: Id, row: ExchangeRow, key: SurfaceKey, s: Id,
                          url: string)
    requires MayCommit(rules, db, files, x, row, key, s, url)
    ensures Advances(db, Committed(db, x, row, key, s))
  {
  }

  lemma DeniedKeeps(rules: Rules, db: Db, files: Files, given: map<Id, string>, d: Id, row: DenialRow)
    requires Coherent(rules, db, files, given) && d !in db.denials && row.run in db.runs
    ensures Coherent(rules, db.(denials := db.denials[d := row]), files, given)
    ensures Advances(db, db.(denials := db.denials[d := row]))
  {
    hide Coherent;
    DenialsIn(rules, db, files, given);
    RunsStandKeeps(rules, db, db.(denials := db.denials[d := row]), files, given);
  }

  // ---- drops ----

  ghost function Dropped(runs: map<Id, RunRow>): nat {
    if runs == map[] then 0
    else
      var r :| r in runs;
      runs[r].dropped + Dropped(runs - {r})
  }

  lemma {:induction false} DroppedOf(runs: map<Id, RunRow>, r: Id)
    requires r in runs
    ensures Dropped(runs) == runs[r].dropped + Dropped(runs - {r})
    decreases runs
  {
    var first :| first in runs && Dropped(runs) == runs[first].dropped + Dropped(runs - {first});
    if first != r {
      DroppedOf(runs - {first}, r);
      DroppedOf(runs - {r}, first);
      assert runs - {first} - {r} == runs - {r} - {first};
    }
  }

  /** The engagement's drops move with one run's, and with no other change. */
  lemma DroppedSet(runs: map<Id, RunRow>, r: Id, row: RunRow)
    ensures Dropped(runs[r := row]) + (if r in runs then runs[r].dropped else 0) == Dropped(runs) + row.dropped
  {
    var now := runs[r := row];
    DroppedOf(now, r);
    assert now - {r} == runs - {r};
    if r in runs {
      DroppedOf(runs, r);
    } else {
      assert runs - {r} == runs;
    }
  }
}
