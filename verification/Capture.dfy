/** The two writers of the `exchange` table, `hx.capture` and `hx.issue`, and the
    read thread's accounting of the frames neither could keep. */
module Capture {
  import opened Options
  import opened Tables
  import opened Blobs
  import opened Store
  import Probe

  /** An unsolicited frame's header. `n` and `ms` are None where `int()` refuses
      what the frame carries. */
  datatype Frame = Frame(
    t: string, source: string, via: string, url: string, verb: string, n: Option<int>, errorClass: string,
    ms: Option<int>, outcome: string, status: Option<int>)

  const FRAME_TYPES := {"exchange", "denial", "dropped"}
  const OUTCOMES := {"ok", "timeout", "conn_refused", "dns_error", "tls_error", "scope_denied", "rate_limited",
                     "bridge_lost", "truncated", "status_unreadable"}
  const NO_STATUS_OUTCOMES := {"timeout", "conn_refused", "dns_error", "tls_error", "bridge_lost"}
  const STATUS_UNREADABLE := 599

  function OutcomeOf(outcome: string): string {
    if outcome == "" then "ok" else outcome
  }

  /** `record_exchange`'s guards: outcome and status are one fact. */
  predicate Tells(outcome: string, status: Option<int>) {
    && outcome in OUTCOMES
    && (status.None? ==> outcome != "ok" && outcome != "truncated")
    && (outcome == "status_unreadable" ==> status == Some(STATUS_UNREADABLE))
    && (outcome in NO_STATUS_OUTCOMES ==> status.None?)
  }

  /** Outcome by outcome, the statuses an exchange may be recorded with. */
  lemma TellsByOutcome(outcome: string, status: Option<int>)
    ensures Tells(outcome, status) <==>
      || (outcome in {"ok", "truncated"} && status.Some?)
      || (outcome == "status_unreadable" && status == Some(599))
      || (outcome in {"timeout", "conn_refused", "dns_error", "tls_error", "bridge_lost"} && status.None?)
      || outcome in {"scope_denied", "rate_limited"}
  {
  }

  datatype Route = ToDenial(kind: string) | Nowhere | Unroutable

  /** `row_for(error_class, issued=False)`. */
  function RowFor(c: string): Route {
    if c in {"scope_denied", "method_denied", "dangerous_denied", "rate_limited", "budget_exhausted"} then
      ToDenial(if c == "scope_denied" then "scope" else if c == "method_denied" then "method"
               else if c == "dangerous_denied" then "dangerous" else if c == "rate_limited" then "rate" else "budget")
    else if c == "not_configured" then ToDenial(c)
    else if c in {"unmanaged_credential", "unknown_identity", "identity_origin"} then ToDenial("credential")
    else if c in {"timeout", "bridge_lost"} then Nowhere
    else if c in {"transport_error", "halted", "bad_frame", "engagement_mismatch", "protocol_mismatch",
                  "bad_config", "unknown_frame", "bad_identity", "stale_generation"} then Nowhere
    else Unroutable
  }

  /** A refusal gets a denial row exactly when it is no issuance and not the halt of a
      whole run, and each denial row says which refusal it was. */
  lemma RoutesRefusals(c: string, d: string)
    ensures RowFor(c).ToDenial? <==> c in Probe.NOT_ISSUED && c != "halted"
    ensures RowFor(c).ToDenial? && RowFor(c) == RowFor(d) && c != d ==>
      RowFor(c).kind == "credential" && c in CREDENTIAL_REFUSALS && d in CREDENTIAL_REFUSALS
    ensures RowFor("scope_denied") == ToDenial("scope") && RowFor("method_denied") == ToDenial("method")
    ensures RowFor("dangerous_denied") == ToDenial("dangerous") && RowFor("rate_limited") == ToDenial("rate")
    ensures RowFor("budget_exhausted") == ToDenial("budget") && RowFor("not_configured") == ToDenial("not_configured")
    ensures c in CREDENTIAL_REFUSALS ==> RowFor(c) == ToDenial("credential")
  {
  }

  /** And no row at all exactly for what may have left, for the halt, and for what is no
      answer to a request. */
  lemma RoutesNowhere(c: string)
    ensures RowFor(c).Nowhere? <==>
      c in {"timeout", "bridge_lost"} || c == "halted" || c in {"transport_error", "bad_frame", "unknown_frame"}
      || c in {"engagement_mismatch", "protocol_mismatch", "bad_config", "bad_identity", "stale_generation"}
  {
  }

  const CREDENTIAL_REFUSALS := {"unmanaged_credential", "unknown_identity", "identity_origin"}

  /** A frame `on_exchange` cannot read. It is refused before a run is opened. */
  predicate Unreadable(rules: Rules, f: Frame) {
    || f.t !in FRAME_TYPES
    || (f.t == "dropped" && (f.n.None? || f.n.value < 1))
    || (f.t != "dropped" && (f.via !in VIA_VALUES || f.url == ""))
    || (f.t == "denial" && RowFor(f.errorClass).Unroutable?)
    || (f.t == "exchange" && (f.ms.None? || OutcomeOf(f.outcome) !in OUTCOMES
                              || rules.normalise(f.verb, f.url).None?))
  }

  /** A refused frame touched nothing; a raise may have left a run or a blob. */
  datatype Taken = Took(exchange: Option<Id>) | RefusedFrame | Raised

  /** What a writer is handed to record. */
  datatype Deed = Deed(verb: string, url: string, via: string, outcome: string, status: Option<int>,
                       request: seq<int>, response: seq<int>)

  /** `x` is the one exchange that is new: what was sent and what came back, each
      under its own reference, on its run's count and under its own surface. */
  ghost predicate Filed(rules: Rules, was: Db, now: Db, files: Files, given: map<Id, string>, x: Id, d: Deed) {
    && x !in was.exchanges && x in now.exchanges && now.exchanges.Keys == was.exchanges.Keys + {x}
    && x in given && given[x] == d.url
    && var e := now.exchanges[x];
       && e.verb == d.verb && e.via == d.via && e.outcome == d.outcome && e.status == d.status
       && Tells(d.outcome, d.status) && e.url == rules.redact(d.url)
       && Names(rules, files, e.reqBlob, d.request) && Names(rules, files, e.respBlob, d.response)
       && e.surface.Some? && Charted(was, now, e.surface.value, x, e.run, d.via)
       && now.denials == was.denials
       && e.run in now.runs
       && now.runs[e.run].issued == (if e.run in was.runs then was.runs[e.run].issued else 0) + 1
       && forall r <- now.runs :: r != e.run ==>
            now.runs[r].issued == if r in was.runs then was.runs[r].issued else 0
  }

  /** The surface the exchange is under: seen last by its run; and, if it is new, first
      seen by it, found by its egress point and with it as the exemplar. No other
      surface moves. */
  predicate Charted(was: Db, now: Db, s: Id, x: Id, run: Id, via: string) {
    && s in now.surfaces && now.surfaces.Keys == was.surfaces.Keys + {s}
    && (forall t <- was.surfaces :: t != s ==> now.surfaces[t] == was.surfaces[t])
    && now.surfaces[s]
       == if s in was.surfaces then was.surfaces[s].(lastSeen := run)
          else SurfaceRow(now.surfaces[s].key, if via == "send" then "agent" else via, run, run, x)
  }

  function KindOf(source: string): string {
    if source == "crawler" then "crawl" else "browse"
  }

  // ---- what every step comes to, as a function of the store and its faults ----

  /** A connection and the blob store beside it, as values. */
  datatype World = World(st: State, files: Files, puts: nat)

  function Now(conn: Store): World
    reads conn, conn.blobs
  {
    World(conn.Now(), conn.blobs.files, conn.blobs.puts)
  }

  /** The first listed surface under a key. */
  function SurfaceAt(rows: seq<Id>, surfaces: map<Id, SurfaceRow>, key: SurfaceKey): (s: Option<Id>) {
    if rows == [] then None
    else if rows[0] in surfaces && surfaces[rows[0]].key == key then Some(rows[0])
    else SurfaceAt(rows[1..], surfaces, key)
  }

  function SurfaceOf(conn: Store, surfaces: map<Id, SurfaceRow>, key: SurfaceKey): Option<Id> {
    SurfaceAt(conn.listing(surfaces.Keys), surfaces, key)
  }

  /** `upsert_surface`: the surface under a key, which is the one there is or a new
      one; the INSERT that settles it, and the SELECT that asks its id back. */
  function UpsertedFrom(conn: Store, s: State, key: SurfaceKey): (Option<Id>, State) {
    var drawn, found := conn.ids(s.minted), SurfaceOf(conn, s.db.surfaces, key);
    if conn.fails(s.ticks) || (found.None? && drawn in s.db.surfaces) then
      (None, State(s.db, s.ticks + 1, s.minted + 1))
    else
      (if conn.fails(s.ticks + 1) then None else if found.Some? then found else Some(drawn),
       State(s.db, s.ticks + 2, s.minted + 1))
  }

  /** The exchange transaction: five statements and two ids. */
  function TransactedFrom(conn: Store, s: State, row: ExchangeRow, key: SurfaceKey): (Option<(Id, Id)>, State) {
    var x, t := conn.ids(s.minted), s.ticks;
    if row.via !in VIA_VALUES || !Tells(row.outcome, row.status) then (None, s)
    else if conn.fails(t) || x in s.db.exchanges || row.run !in s.db.runs then
      (None, State(s.db, t + 1, s.minted + 1))
    else if conn.fails(t + 1) then (None, State(s.db, t + 2, s.minted + 1))
    else
      match UpsertedFrom(conn, State(s.db, t + 2, s.minted + 1), key)
      case (None, z) => (None, z)
      case (Some(id), z) =>
        if conn.fails(z.ticks) then (None, State(s.db, z.ticks + 1, z.minted))
        else (Some((x, id)), State(Committed(s.db, x, row, key, id), z.ticks + 1, z.minted))
  }

  function RowFrom(rules: Rules, run: Id, verb: string, url: string, via: string, outcome: string,
                   status: Option<int>, reqBlob: Option<string>, respBlob: Option<string>): ExchangeRow
  {
    ExchangeRow(run, via, outcome, verb, rules.redact(url), status, reqBlob, respBlob, None)
  }

  /** A put of one body; an empty one is no blob. */
  function PutFrom(conn: Store, w: World, data: seq<int>): (bool, Option<string>, World) {
    if data == [] then (true, None, w)
    else
      var way, digest := conn.blobs.ways(w.puts), conn.blobs.digest;
      var ok := Stores(digest, way, w.files, data);
      (ok, if ok then Some(digest(data)) else None,
       w.(files := Shelved(digest, way, w.files, data), puts := w.puts + 1))
  }

  function BothFrom(conn: Store, w: World, request: seq<int>, response: seq<int>)
    : (bool, Option<string>, Option<string>, World)
  {
    var (ok, req, z) := PutFrom(conn, w, request);
    if !ok then (false, req, None, z)
    else
      var (both, resp, end) := PutFrom(conn, z, response);
      (both, req, resp, end)
  }

  /** `_run`, then the heartbeat. */
  function ServedFrom(conn: Store, s: State, source: string, at: int): (Option<Id>, State) {
    match CurrentFrom(conn, s, KindOf(source), at)
    case (Done(run), z) =>
      if run !in z.db.runs then (None, z)
      else
        var (ok, end) := UpdatedFrom(conn, z, run, Beaten(z.db.runs[run], at));
        (if ok then Some(run) else None, end)
    case (_, z) => (None, z)
  }

  function DroppedFrom(conn: Store, s: State, f: Frame, at: int): (Taken, State) {
    if f.n.None? || f.n.value < 1 then (RefusedFrame, s)
    else
      match ServedFrom(conn, s, f.source, at)
      case (None, z) => (Raised, z)
      case (Some(run), z) =>
        if run !in z.db.runs then (Raised, z)
        else
          var row := z.db.runs[run];
          var (ok, end) := UpdatedFrom(conn, z, run, row.(dropped := row.dropped + f.n.value));
          (if ok then Took(None) else Raised, end)
  }

  function DeniedFrom(conn: Store, s: State, f: Frame, at: int): (Taken, State) {
    match RowFor(f.errorClass)
    case Unroutable => (RefusedFrame, s)
    case Nowhere => (Took(None), s)
    case ToDenial(kind) =>
      match ServedFrom(conn, s, f.source, at)
      case (None, z) => (Raised, z)
      case (Some(run), z) =>
        var d, end := conn.ids(z.minted), z.(ticks := z.ticks + 1, minted := z.minted + 1);
        if conn.fails(z.ticks) || d in z.db.denials then (Raised, end)
        else
          var row := DenialRow(run, kind, f.verb, conn.rules.redact(f.url), f.via);
          (Took(None), end.(db := z.db.(denials := z.db.denials[d := row])))
  }

  function ExchangedFrom(conn: Store, w: World, f: Frame, request: seq<int>, response: seq<int>, at: int)
    : (Taken, World)
  {
    var key := conn.rules.normalise(f.verb, f.url);
    if f.ms.None? || OutcomeOf(f.outcome) !in OUTCOMES || key.None? then (RefusedFrame, w)
    else
      match ServedFrom(conn, w.st, f.source, at)
      case (None, z) => (Raised, w.(st := z))
      case (Some(run), z) =>
        var (ok, req, resp, v) := BothFrom(conn, w.(st := z), request, response);
        if !ok then (Raised, v)
        else
          var row := RowFrom(conn.rules, run, f.verb, f.url, f.via, OutcomeOf(f.outcome), f.status, req, resp);
          var (done, end) := TransactedFrom(conn, v.st, row, key.value);
          (if done.Some? then Took(Some(done.value.0)) else Raised, v.(st := end))
  }

  function HandledFrom(conn: Store, w: World, f: Frame, request: seq<int>, response: seq<int>, at: int)
    : (Taken, World)
  {
    if f.t !in FRAME_TYPES then (RefusedFrame, w)
    else if f.t == "dropped" then
      var (t, z) := DroppedFrom(conn, w.st, f, at);
      (t, w.(st := z))
    else if f.via !in VIA_VALUES || f.url == "" then (RefusedFrame, w)
    else if f.t == "denial" then
      var (t, z) := DeniedFrom(conn, w.st, f, at);
      (t, w.(st := z))
    else ExchangedFrom(conn, w, f, request, response, at)
  }

  // ---- and exactly when each succeeds ----

  /** Statements a frame's run takes, heartbeat included, when they go through. */
  function ServeCost(conn: Store, s: State, source: string, at: int): nat {
    CurrentCost(conn, s, KindOf(source), at) + 1
  }

  /** The ids drawn by then. */
  function MintedBy(conn: Store, s: State, source: string, at: int): nat {
    if Reuses(conn, s, KindOf(source), at) then s.minted else s.minted + 1
  }

  /** A run for a frame of this source can be had, and `more` statements after it. */
  ghost predicate Servable(conn: Store, s: State, source: string, at: int, more: nat) {
    && Works(conn, s.ticks, s.ticks + ServeCost(conn, s, source, at) + more)
    && (!Reuses(conn, s, KindOf(source), at) ==> conn.ids(s.minted) !in s.db.runs)
  }

  lemma ServedExactlyWhen(conn: Store, s: State, source: string, at: int)
    ensures var (r, z) := ServedFrom(conn, s, source, at);
      && (r.Some? <==> Servable(conn, s, source, at, 0))
      && (r.Some? ==> z.ticks == s.ticks + ServeCost(conn, s, source, at)
                      && z.minted == MintedBy(conn, s, source, at) && r.value in z.db.runs)
      && z.db.(runs := s.db.runs) == s.db && s.minted <= z.minted
  {
    hide CurrentFrom, Reuses, CurrentCost, Works;
    CurrentExactlyWhen(conn, s, KindOf(source), at);
    OneMoreWorks(conn, s.ticks, s.ticks + CurrentCost(conn, s, KindOf(source), at));
  }

  /** What the exchange transaction asks of the store: its run is there, its
      statements go through, and the ids drawn for its rows are new. */
  ghost predicate Transactable(conn: Store, db: Db, ticks: nat, minted: nat, key: SurfaceKey) {
    && Works(conn, ticks, ticks + 5) && conn.ids(minted) !in db.exchanges
    && (SurfaceOf(conn, db.surfaces, key).None? ==> conn.ids(minted + 1) !in db.surfaces)
  }

  lemma TransactedExactlyWhen(conn: Store, s: State, row: ExchangeRow, key: SurfaceKey)
    ensures var (done, z) := TransactedFrom(conn, s, row, key);
      && (done.Some? <==> row.via in VIA_VALUES && Tells(row.outcome, row.status) && row.run in s.db.runs
                          && Transactable(conn, s.db, s.ticks, s.minted, key))
      && (done.None? ==> z.db == s.db)
  {
    hide Tells, SurfaceOf, Committed;
    var t := s.ticks;
    assert !Works(conn, t, t + 5) <==>
      conn.fails(t) || conn.fails(t + 1) || conn.fails(t + 2) || conn.fails(t + 3) || conn.fails(t + 4);
  }

  /** The file system lets both bodies be stored, one put after the other. */
  predicate BothStored(conn: Store, w: World, request: seq<int>, response: seq<int>) {
    BothFrom(conn, w, request, response).0
  }

  lemma BothOnlyFiles(conn: Store, w: World, v: World, request: seq<int>, response: seq<int>)
    requires v == w.(st := v.st)
    ensures BothStored(conn, v, request, response) <==> BothStored(conn, w, request, response)
    ensures BothFrom(conn, v, request, response).3.st == v.st
  {
  }

  /** What stands between a frame that can be read and its row: nothing but these. */
  ghost predicate Recordable(conn: Store, w: World, f: Frame, request: seq<int>, response: seq<int>, at: int) {
    if f.t == "dropped" then Servable(conn, w.st, f.source, at, 1)
    else if f.t == "denial" then
      RowFor(f.errorClass).ToDenial? ==>
        Servable(conn, w.st, f.source, at, 1) && conn.ids(MintedBy(conn, w.st, f.source, at)) !in w.st.db.denials
    else
      && Servable(conn, w.st, f.source, at, 0) && BothStored(conn, w, request, response)
      && Tells(OutcomeOf(f.outcome), f.status)
      && conn.rules.normalise(f.verb, f.url).Some?
      && Transactable(conn, w.st.db, w.st.ticks + ServeCost(conn, w.st, f.source, at),
                      MintedBy(conn, w.st, f.source, at), conn.rules.normalise(f.verb, f.url).value)
  }

  lemma DroppedExactlyWhen(conn: Store, s: State, f: Frame, at: int)
    ensures var (t, z) := DroppedFrom(conn, s, f, at);
      && (t.RefusedFrame? <==> f.n.None? || f.n.value < 1)
      && (t.Took? <==> !t.RefusedFrame? && Servable(conn, s, f.source, at, 1))
  {
    hide ServedFrom, ServeCost, Reuses, Works;
    ServedExactlyWhen(conn, s, f.source, at);
    OneMoreWorks(conn, s.ticks, s.ticks + ServeCost(conn, s, f.source, at));
  }

  lemma DeniedExactlyWhen(conn: Store, s: State, f: Frame, at: int)
    ensures var (t, z) := DeniedFrom(conn, s, f, at);
      && (t.RefusedFrame? <==> RowFor(f.errorClass).Unroutable?)
      && (RowFor(f.errorClass).ToDenial? ==>
            (t.Took? <==> Servable(conn, s, f.source, at, 1)
                          && conn.ids(MintedBy(conn, s, f.source, at)) !in s.db.denials))
  {
    hide ServedFrom, ServeCost, Reuses, Works, RowFor, MintedBy;
    ServedExactlyWhen(conn, s, f.source, at);
    OneMoreWorks(conn, s.ticks, s.ticks + ServeCost(conn, s, f.source, at));
  }

  lemma ExchangedExactlyWhen(conn: Store, w: World, f: Frame, request: seq<int>, response: seq<int>, at: int)
    requires f.t == "exchange" && f.via in VIA_VALUES && f.url != ""
    ensures var (t, z) := ExchangedFrom(conn, w, f, request, response, at);
      && (t.RefusedFrame? <==> Unreadable(conn.rules, f))
      && (t.Took? <==> !Unreadable(conn.rules, f) && Recordable(conn, w, f, request, response, at))
  {
    hide ServedFrom, ServeCost, Works, MintedBy, BothFrom, TransactedFrom, Tells, Transactable, Servable;
    hide OutcomeOf, OUTCOMES, BothStored;
    ServedExactlyWhen(conn, w.st, f.source, at);
    var (run, z) := ServedFrom(conn, w.st, f.source, at);
    var v := w.(st := z);
    BothOnlyFiles(conn, w, v, request, response);
    BothSays(conn, v, request, response);
    var key := conn.rules.normalise(f.verb, f.url);
    if run.Some? && key.Some? {
      var (ok, req, resp, u) := BothFrom(conn, v, request, response);
      var row := RowFrom(conn.rules, run.value, f.verb, f.url, f.via, OutcomeOf(f.outcome), f.status, req, resp);
      TransactedExactlyWhen(conn, u.st, row, key.value);
      SameTables(conn, w.st.db, z.db, z.ticks, z.minted, key.value);
    }
  }

  lemma BothSays(conn: Store, w: World, request: seq<int>, response: seq<int>)
    ensures BothStored(conn, w, request, response) <==> BothFrom(conn, w, request, response).0
  {
  }

  lemma SameTables(conn: Store, a: Db, b: Db, ticks: nat, minted: nat, key: SurfaceKey)
    requires a.exchanges == b.exchanges && a.surfaces == b.surfaces
    ensures Transactable(conn, a, ticks, minted, key) <==> Transactable(conn, b, ticks, minted, key)
  {
  }

  /** A frame is taken exactly when it can be read, its row would tell the truth,
      and no statement, put or id on its way fails; it is refused exactly when it
      cannot be read. */
  lemma TakenExactlyWhen(conn: Store, w: World, f: Frame, request: seq<int>, response: seq<int>, at: int)
    ensures var (t, z) := HandledFrom(conn, w, f, request, response, at);
      && (t.RefusedFrame? <==> Unreadable(conn.rules, f))
      && (t.Took? <==> !Unreadable(conn.rules, f) && Recordable(conn, w, f, request, response, at))
  {
    hide DroppedFrom, DeniedFrom, ExchangedFrom, Servable, BothStored, Transactable, Tells, RowFor, MintedBy, ServeCost;
    if f.t == "dropped" {
      DroppedExactlyWhen(conn, w.st, f, at);
    } else if f.via in VIA_VALUES && f.url != "" {
      if f.t == "denial" {
        DeniedExactlyWhen(conn, w.st, f, at);
        NowhereTakes(conn, w.st, f, at);
      } else if f.t == "exchange" {
        ExchangedExactlyWhen(conn, w, f, request, response, at);
      }
    }
  }

  lemma NowhereTakes(conn: Store, s: State, f: Frame, at: int)
    ensures RowFor(f.errorClass).Nowhere? ==> DeniedFrom(conn, s, f, at) == (Took(None), s)
  {
  }

  // ---- the methods ----

  method FindSurface(conn: Store, surfaces: map<Id, SurfaceRow>, key: SurfaceKey) returns (s: Option<Id>)
    requires conn.Lists()
    ensures s == SurfaceOf(conn, surfaces, key)
    ensures s.Some? ==> s.value in surfaces && surfaces[s.value].key == key
    ensures s.None? ==> forall t <- surfaces :: surfaces[t].key != key
  {
    var rows := conn.listing(surfaces.Keys);
    assert rows[0..] == rows;
    for i := 0 to |rows|
      invariant forall j :: 0 <= j < i ==> surfaces[rows[j]].key != key
      invariant SurfaceAt(rows[i..], surfaces, key) == SurfaceAt(rows, surfaces, key)
    {
      if surfaces[rows[i]].key == key {
        return Some(rows[i]);
      }
    }
    s := None;
  }

  /** The row, touched or new, and the id it is under; None where a statement
      raises. */
  method UpsertSurface(conn: Store, key: SurfaceKey, via: string, run: Id, x: Id)
    returns (done: Option<(map<Id, SurfaceRow>, Id)>)
    requires conn.Lists()
    modifies conn`ticks, conn`minted
    ensures var (s, z) := UpsertedFrom(conn, old(conn.Now()), key);
      && conn.Now() == z
      && done == if s.None? then None else Some((Upserted(conn.db.surfaces, s.value, key, via, run, x), s.value))
  {
    hide SurfaceOf, DiscoveredBy;
    var drawn := conn.NewId();
    var ok := conn.Statement();
    var found := FindSurface(conn, conn.db.surfaces, key);
    if !ok || (found.None? && drawn in conn.db.surfaces) {
      return None;
    }
    var s := if found.Some? then found.value else drawn;
    var surface := if found.Some? then conn.db.surfaces[s].(lastSeen := run)
                   else SurfaceRow(key, DiscoveredBy(via), run, run, x);
    ok := conn.Statement();
    done := if ok then Some((conn.db.surfaces[s := surface], s)) else None;
  }

  /** `first_seen_run`, `discovered_by` and the exemplar are written once. */
  function Upserted(surfaces: map<Id, SurfaceRow>, s: Id, key: SurfaceKey, via: string, run: Id, x: Id)
    : map<Id, SurfaceRow>
  {
    var row := if s in surfaces then surfaces[s].(lastSeen := run) else SurfaceRow(key, DiscoveredBy(via), run, run, x);
    surfaces[s := row]
  }

  /** The statements both writers put inside their transaction, on the tables as
      the transaction sees them; None where one of them raises. */
  method Transact(conn: Store, row: ExchangeRow, key: SurfaceKey) returns (done: Option<(Db, Id, Id)>)
    requires conn.Lists()
    modifies conn`ticks, conn`minted
    ensures var (did, z) := TransactedFrom(conn, old(conn.Now()), row, key);
      && (conn.ticks, conn.minted) == (z.ticks, z.minted)
      && done == if did.Some? then Some((z.db, did.value.0, did.value.1)) else None
  {
    hide Tells, UpsertedFrom;
    if row.via !in VIA_VALUES || !Tells(row.outcome, row.status) {
      return None;
    }
    var x := conn.NewId();
    var ok := conn.Statement();
    if !ok || x in conn.db.exchanges || row.run !in conn.db.runs {
      return None;
    }
    var exchanges := conn.db.exchanges[x := row];
    ok := conn.Statement();
    if !ok {
      return None;
    }
    var run := conn.db.runs[row.run];
    var runs := conn.db.runs[row.run := run.(issued := run.issued + 1)];
    var upserted := UpsertSurface(conn, key, row.via, row.run, x);
    if upserted.None? {
      return None;
    }
    var (surfaces, s) := upserted.value;
    ok := conn.Statement();
    if !ok {
      return None;
    }
    exchanges := exchanges[x := exchanges[x].(surface := Some(s))];
    assert exchanges == conn.db.exchanges[x := row.(surface := Some(s))];
    done := Some((Db(runs, exchanges, surfaces, conn.db.denials), x, s));
  }

  /** What comes of it: one step on coherent tables. */
  lemma TransactedMeans(conn: Store, s: State, row: ExchangeRow, key: SurfaceKey)
    requires conn.Lists() && TransactedFrom(conn, s, row, key).0.Some?
    ensures var (x, id) := TransactedFrom(conn, s, row, key).0.value;
      && row.run in s.db.runs && x !in s.db.exchanges && SurfaceFor(s.db, key, id)
      && TransactedFrom(conn, s, row, key).1.db == Committed(s.db, x, row, key, id)
  {
    hide Tells, Committed;
    SurfaceAtMeans(conn.listing(s.db.surfaces.Keys), s.db.surfaces, key);
  }

  lemma {:induction false} SurfaceAtMeans(rows: seq<Id>, surfaces: map<Id, SurfaceRow>, key: SurfaceKey)
    ensures var s := SurfaceAt(rows, surfaces, key);
      && (s.Some? ==> s.value in surfaces && surfaces[s.value].key == key)
      && (s.None? ==> forall r <- rows :: r in surfaces ==> surfaces[r].key != key)
  {
    if rows != [] {
      SurfaceAtMeans(rows[1..], surfaces, key);
    }
  }

  lemma CommittedFiled(rules: Rules, db: Db, files: Files, given: map<Id, string>, x: Id, run: Id, d: Deed,
                       reqBlob: Option<string>, respBlob: Option<string>, key: SurfaceKey, s: Id)
    requires run in db.runs && x !in db.exchanges && Tells(d.outcome, d.status)
    requires Names(rules, files, reqBlob, d.request) && Names(rules, files, respBlob, d.response)
    ensures var row := RowFrom(rules, run, d.verb, d.url, d.via, d.outcome, d.status, reqBlob, respBlob);
      Filed(rules, db, Committed(db, x, row, key, s), files, given[x := d.url], x, d)
  {
    hide Tells, Names;
  }

  /** The transaction, committed whole or not at all. */
  method WriteExchange(conn: Store, run: Id, verb: string, url: string, via: string, outcome: string,
                       status: Option<int>, reqBlob: Option<string>, respBlob: Option<string>, key: SurfaceKey,
                       ghost request: seq<int>, ghost response: seq<int>)
    returns (x: Option<Id>)
    requires conn.Valid() && conn.rules.normalise(verb, url) == Some(key)
    requires Names(conn.rules, conn.blobs.files, reqBlob, request)
    requires Names(conn.rules, conn.blobs.files, respBlob, response)
    modifies conn`db, conn`ticks, conn`minted, conn`given
    ensures conn.Valid() && Advances(old(conn.db), conn.db)
    ensures var row := RowFrom(conn.rules, run, verb, url, via, outcome, status, reqBlob, respBlob);
      var (did, z) := TransactedFrom(conn, old(conn.Now()), row, key);
      conn.Now() == z && x == if did.Some? then Some(did.value.0) else None
    ensures x.Some? <==> via in VIA_VALUES && Tells(outcome, status) && run in old(conn.db.runs)
                         && Transactable(conn, old(conn.db), old(conn.ticks), old(conn.minted), key)
    ensures x.None? ==> conn.db == old(conn.db) && conn.given == old(conn.given)
    ensures x.Some? ==>
      && Filed(conn.rules, old(conn.db), conn.db, conn.blobs.files, conn.given, x.value,
               Deed(verb, url, via, outcome, status, request, response))
      && x.value in conn.db.exchanges && conn.db.exchanges[x.value].run == run
    ensures Dropped(conn.db.runs) == Dropped(old(conn.db).runs)
  {
    hide Coherent, Advances, Dropped, SurfaceFor, Filed, Tells;
    NothingMoves(conn.db);
    var row := RowFrom(conn.rules, run, verb, url, via, outcome, status, reqBlob, respBlob);
    TransactedExactlyWhen(conn, conn.Now(), row, key);
    ghost var was := conn.Now();
    hide TransactedFrom, Transactable;
    var done := Transact(conn, row, key);
    if done.None? {
      return None;
    }
    TransactedMeans(conn, was, row, key);
    var (now, id, s) := done.value;
    CommittedKeeps(conn.rules, conn.db, conn.blobs.files, conn.given, id, row, key, s, url);
    CommittedFiled(conn.rules, conn.db, conn.blobs.files, conn.given, id, run,
                   Deed(verb, url, via, outcome, status, request, response), reqBlob, respBlob, key, s);
    DroppedSet(conn.db.runs, run, now.runs[run]);
    conn.db := now;
    conn.given := conn.given[id := url];
    x := Some(id);
  }

  /** A blob, put before the transaction that names it. */
  method PutBlob(conn: Store, data: seq<int>) returns (ok: bool, ref: Option<string>)
    requires conn.Valid()
    modifies conn.blobs
    ensures conn.Valid() && BlobsKept(conn.rules, old(conn.blobs.files), conn.blobs.files)
    ensures (ok, ref, Now(conn)) == PutFrom(conn, old(Now(conn)), data)
    ensures ok ==> Names(conn.rules, conn.blobs.files, ref, data)
  {
    hide Coherent;
    if data == [] {
      return true, None;
    }
    ref := conn.blobs.Put(data);
    ok := ref.Some?;
    BlobsKeptKeeps(conn.rules, conn.db, old(conn.blobs.files), conn.blobs.files, conn.given);
  }

  /** Both halves of an exchange. */
  method PutBoth(conn: Store, request: seq<int>, response: seq<int>)
    returns (ok: bool, reqBlob: Option<string>, respBlob: Option<string>)
    requires conn.Valid()
    modifies conn.blobs
    ensures conn.Valid()
    ensures (ok, reqBlob, respBlob, Now(conn)) == BothFrom(conn, old(Now(conn)), request, response)
    ensures ok ==>
      Names(conn.rules, conn.blobs.files, reqBlob, request) && Names(conn.rules, conn.blobs.files, respBlob, response)
  {
    respBlob := None;
    ok, reqBlob := PutBlob(conn, request);
    if ok {
      ok, respBlob := PutBlob(conn, response);
    }
  }

  /** The run a frame belongs to, heard from. */
  method RunFor(conn: Store, source: string, at: int) returns (r: Option<Id>)
    requires conn.Valid()
    modifies conn`db, conn`ticks, conn`minted
    ensures conn.Valid() && Advances(old(conn.db), conn.db) && RunsOnly(old(conn.db), conn.db)
    ensures (r, conn.Now()) == ServedFrom(conn, old(conn.Now()), source, at)
    ensures r.Some? <==> Servable(conn, old(conn.Now()), source, at, 0)
    ensures r.Some? ==> r.value in conn.db.runs && conn.db.runs[r.value].kind == KindOf(source)
    ensures r.Some? ==>
      conn.db.runs[r.value].status == Running && conn.db.runs[r.value].heartbeat == Some(at)
    ensures Dropped(conn.db.runs) == Dropped(old(conn.db.runs))
  {
    hide Coherent, Advances, RunsOnly, RunKept, Dropped, IsLive, IsStale, Ended, CurrentFrom, Servable;
    ServedExactlyWhen(conn, conn.Now(), source, at);
    ghost var was := conn.db;
    var run := CurrentRun(conn, KindOf(source), at);
    if !run.Done? {
      return None;
    }
    ghost var mid := conn.db;
    var ok := Heartbeat(conn, run.value, at);
    AdvancesOnward(was, mid, conn.db);
    RunsOnlyOnward(was, mid, conn.db);
    r := if ok then Some(run.value) else None;
  }

  /** A drop report is on the total of a running run of its source's kind. */
  predicate DropsOn(was: Db, now: Db, f: Frame) {
    && f.n.Some?
    && exists r <- now.runs ::
         && now.runs[r].kind == (if f.source == "crawler" then "crawl" else "browse") && now.runs[r].status == Running
         && now.runs[r].dropped >= (if r in was.runs then was.runs[r].dropped else 0) + f.n.value
  }

  lemma DropsOnRun(was: Db, mid: Db, now: Db, r: Id, f: Frame)
    requires Advances(was, mid) && r in mid.runs && r in now.runs && f.n.Some? && f.n.value >= 1
    requires mid.runs[r].kind == KindOf(f.source) && mid.runs[r].status == Running
    ensures now.runs[r] == mid.runs[r].(dropped := mid.runs[r].dropped + f.n.value) ==> DropsOn(was, now, f)
  {
  }

  method TakeDrop(conn: Store, f: Frame, at: int) returns (t: Taken)
    requires conn.Valid() && f.t == "dropped"
    modifies conn`db, conn`ticks, conn`minted
    ensures conn.Valid() && Advances(old(conn.db), conn.db) && conn.db.exchanges == old(conn.db.exchanges)
    ensures (t, conn.Now()) == DroppedFrom(conn, old(conn.Now()), f, at)
    ensures t.Took? <==> !Unreadable(conn.rules, f) && Servable(conn, old(conn.Now()), f.source, at, 1)
    ensures t.RefusedFrame? <==> Unreadable(conn.rules, f)
    ensures t.RefusedFrame? ==> conn.db == old(conn.db)
    ensures t.Took? ==> t.exchange.None? && Dropped(conn.db.runs) == Dropped(old(conn.db.runs)) + f.n.value
    ensures t.Took? ==> DropsOn(old(conn.db), conn.db, f)
    ensures !t.Took? ==> Dropped(conn.db.runs) == Dropped(old(conn.db.runs))
  {
    hide Coherent, Advances, RunKept, Dropped, ServedFrom, Servable, Store.Valid;
    DroppedExactlyWhen(conn, conn.Now(), f, at);
    NothingMoves(conn.db);
    if f.n.None? || f.n.value < 1 {
      return RefusedFrame;
    }
    ghost var was := conn.db;
    var run := RunFor(conn, f.source, at);
    if run.None? {
      return Raised;
    }
    ghost var mid := conn.db;
    var done := CountDrop(conn, run.value, f.n.value);
    DropsOnRun(was, mid, conn.db, run.value, f);
    AdvancesOnward(was, mid, conn.db);
    t := if done.Done? then Took(None) else Raised;
  }

  /** A denial is a row of its own, for a request that was never issued. */
  method TakeDenial(conn: Store, f: Frame, at: int) returns (t: Taken)
    requires conn.Valid() && f.t == "denial" && f.via in VIA_VALUES && f.url != ""
    modifies conn`db, conn`ticks, conn`minted
    ensures conn.Valid() && Advances(old(conn.db), conn.db) && conn.db.exchanges == old(conn.db.exchanges)
    ensures (t, conn.Now()) == DeniedFrom(conn, old(conn.Now()), f, at)
    ensures RowFor(f.errorClass).ToDenial? ==>
      (t.Took? <==> Servable(conn, old(conn.Now()), f.source, at, 1)
                    && conn.ids(MintedBy(conn, old(conn.Now()), f.source, at)) !in old(conn.db.denials))
    ensures t.RefusedFrame? <==> Unreadable(conn.rules, f)
    ensures t.RefusedFrame? ==> conn.db == old(conn.db)
    ensures t.Took? ==> t.exchange.None?
    ensures t.Took? && RowFor(f.errorClass).Nowhere? ==> conn.db == old(conn.db)
    ensures t.Took? && RowFor(f.errorClass).ToDenial? ==> DenialOn(conn.rules, old(conn.db), conn.db, f)
    ensures Dropped(conn.db.runs) == Dropped(old(conn.db.runs))
  {
    hide Coherent, Advances, RunKept, Dropped, RowFor, ServedFrom, Servable, MintedBy, Reuses, Store.Valid;
    DeniedExactlyWhen(conn, conn.Now(), f, at);
    NothingMoves(conn.db);
    var route := RowFor(f.errorClass);
    match route {
      case Unroutable => return RefusedFrame;
      case Nowhere => return Took(None);
      case ToDenial(kind) =>
        ghost var was := conn.db;
        var run := RunFor(conn, f.source, at);
        if run.None? {
          return Raised;
        }
        ghost var mid := conn.db;
        var d := InsertDenial(conn, DenialRow(run.value, kind, f.verb, conn.rules.redact(f.url), f.via));
        AdvancesOnward(was, mid, conn.db);
        t := if d.Some? then Took(None) else Raised;
        if d.Some? {
          KindKept(mid, conn.db, run.value);
          assert d.value in conn.db.denials;
        }
    }
  }

  /** The one denial that is new: of the refusal's kind, under a run of its source's
      kind, for the request as it was, its url redacted. */
  predicate DenialOn(rules: Rules, was: Db, now: Db, f: Frame) {
    && RowFor(f.errorClass).ToDenial?
    && exists d <- now.denials ::
         && d !in was.denials && now.denials == was.denials[d := now.denials[d]]
         && var row := now.denials[d];
            && row.kind == RowFor(f.errorClass).kind && row.via == f.via && row.verb == f.verb
            && row.url == rules.redact(f.url)
            && row.run in now.runs
            && now.runs[row.run].kind == if f.source == "crawler" then "crawl" else "browse"
  }

  method InsertDenial(conn: Store, row: DenialRow) returns (d: Option<Id>)
    requires conn.Valid() && row.run in conn.db.runs
    modifies conn`db, conn`ticks, conn`minted
    ensures conn.Valid() && Advances(old(conn.db), conn.db)
    ensures var id := conn.ids(old(conn.minted));
      && d == (if conn.fails(old(conn.ticks)) || id in old(conn.db).denials then None else Some(id))
      && (conn.ticks, conn.minted) == (old(conn.ticks) + 1, old(conn.minted) + 1)
      && conn.db == if d.Some? then old(conn.db).(denials := old(conn.db).denials[id := row]) else old(conn.db)
  {
    hide Coherent, Advances;
    NothingMoves(conn.db);
    var id := conn.NewId();
    var ok := conn.Statement();
    if !ok || id in conn.db.denials {
      return None;
    }
    DeniedKeeps(conn.rules, conn.db, conn.blobs.files, conn.given, id, row);
    conn.db := conn.db.(denials := conn.db.denials[id := row]);
    d := Some(id);
  }

  /** What one taken exchange changed, whichever writer took it. */
  ghost predicate FiledSince(rules: Rules, was: Db, now: Db, files: Files, given: map<Id, string>, x: Id, f: Frame,
                             request: seq<int>, response: seq<int>)
  {
    && Filed(rules, was, now, files, given, x, DeedOf(f, request, response))
    && now.runs[now.exchanges[x].run].kind == (if f.source == "crawler" then "crawl" else "browse")
    && now.exchanges[x].outcome == if f.outcome == "" then "ok" else f.outcome
  }

  function DeedOf(f: Frame, request: seq<int>, response: seq<int>): Deed {
    Deed(f.verb, f.url, f.via, OutcomeOf(f.outcome), f.status, request, response)
  }

  lemma FiledOnward(rules: Rules, was: Db, mid: Db, now: Db, files: Files, given: map<Id, string>, x: Id, d: Deed)
    requires RunsOnly(was, mid) && Filed(rules, mid, now, files, given, x, d)
    requires Advances(mid, now)
    ensures Filed(rules, was, now, files, given, x, d)
  {
    hide Tells, Names;
    var e := now.exchanges[x];
    forall r | r in now.runs && r != e.run
      ensures now.runs[r].issued == if r in was.runs then was.runs[r].issued else 0 {
    }
  }

  method TakeExchange(conn: Store, f: Frame, request: seq<int>, response: seq<int>, at: int) returns (t: Taken)
    requires conn.Valid() && f.t == "exchange" && f.via in VIA_VALUES && f.url != ""
    modifies conn`db, conn`ticks, conn`minted, conn`given, conn.blobs
    ensures conn.Valid() && Advances(old(conn.db), conn.db)
    ensures (t, Now(conn)) == ExchangedFrom(conn, old(Now(conn)), f, request, response, at)
    ensures t.Took? <==> !Unreadable(conn.rules, f) && Recordable(conn, old(Now(conn)), f, request, response, at)
    ensures t.RefusedFrame? <==> Unreadable(conn.rules, f)
    ensures t.RefusedFrame? ==> conn.db == old(conn.db) && conn.blobs.files == old(conn.blobs.files)
    ensures t.Took? ==>
      && t.exchange.Some?
      && FiledSince(conn.rules, old(conn.db), conn.db, conn.blobs.files, conn.given, t.exchange.value, f,
                    request, response)
    ensures t.Raised? ==> conn.db.exchanges == old(conn.db.exchanges)
    ensures Dropped(conn.db.runs) == Dropped(old(conn.db.runs))
  {
    hide Coherent, Advances, RunsOnly, RunKept, Dropped, Filed, Names, Tells, ServedFrom, BothFrom, TransactedFrom;
    hide RowFrom, Recordable, FiledSince, KindOf, OutcomeOf;
    ExchangedExactlyWhen(conn, Now(conn), f, request, response, at);
    NothingMoves(conn.db);
    var key := conn.rules.normalise(f.verb, f.url);
    if f.ms.None? || OutcomeOf(f.outcome) !in OUTCOMES || key.None? {
      return RefusedFrame;
    }
    ghost var was := conn.db;
    var run := RunFor(conn, f.source, at);
    ghost var mid := conn.db;
    RunsOnlyExchanges(was, mid);
    if run.None? {
      return Raised;
    }
    var ok, reqBlob, respBlob := PutBoth(conn, request, response);
    if !ok {
      return Raised;
    }
    var x := WriteExchange(conn, run.value, f.verb, f.url, f.via, OutcomeOf(f.outcome), f.status,
                           reqBlob, respBlob, key.value, request, response);
    AdvancesOnward(was, mid, conn.db);
    if x.None? {
      return Raised;
    }
    ghost var deed := DeedOf(f, request, response);
    FiledOnward(conn.rules, was, mid, conn.db, conn.blobs.files, conn.given, x.value, deed);
    KindKept(mid, conn.db, run.value);
    FiledRun(conn.rules, was, conn.db, conn.blobs.files, conn.given, x.value, deed);
    FiledFrame(conn.rules, was, conn.db, conn.blobs.files, conn.given, x.value, f, request, response);
    t := Took(x);
  }

  lemma FiledFrame(rules: Rules, was: Db, now: Db, files: Files, given: map<Id, string>, x: Id, f: Frame,
                   request: seq<int>, response: seq<int>)
    requires Filed(rules, was, now, files, given, x, DeedOf(f, request, response))
    requires now.runs[now.exchanges[x].run].kind == KindOf(f.source)
    ensures FiledSince(rules, was, now, files, given, x, f, request, response)
  {
    hide Tells, Names, Charted;
  }

  lemma RunsOnlyExchanges(was: Db, now: Db)
    requires RunsOnly(was, now)
    ensures now.exchanges == was.exchanges && now.surfaces == was.surfaces
  {
  }

  lemma KindKept(was: Db, now: Db, r: Id)
    requires Advances(was, now) && r in was.runs
    ensures r in now.runs && now.runs[r].kind == was.runs[r].kind
  {
  }

  lemma FiledRun(rules: Rules, was: Db, now: Db, files: Files, given: map<Id, string>, x: Id, d: Deed)
    requires Filed(rules, was, now, files, given, x, d)
    ensures x in now.exchanges && now.exchanges[x].run in now.runs
  {
  }

  /** One frame. It is refused exactly when it cannot be read, and then nothing was
      touched; however a store or a blob fails under one that can be, the tables
      are as coherent after it as before. */
  method OnExchange(conn: Store, f: Frame, request: seq<int>, response: seq<int>, at: int) returns (t: Taken)
    requires conn.Valid()
    modifies conn`db, conn`ticks, conn`minted, conn`given, conn.blobs
    ensures conn.Valid() && Advances(old(conn.db), conn.db)
    ensures (t, Now(conn)) == HandledFrom(conn, old(Now(conn)), f, request, response, at)
    ensures t.RefusedFrame? <==> Unreadable(conn.rules, f)
    ensures t.Took? <==> !Unreadable(conn.rules, f) && Recordable(conn, old(Now(conn)), f, request, response, at)
    ensures t.RefusedFrame? ==> conn.db == old(conn.db) && conn.blobs.files == old(conn.blobs.files)
    ensures t.Took? && f.t == "exchange" ==>
      && t.exchange.Some?
      && FiledSince(conn.rules, old(conn.db), conn.db, conn.blobs.files, conn.given, t.exchange.value, f,
                    request, response)
    ensures t.Raised? || f.t != "exchange" ==> conn.db.exchanges == old(conn.db.exchanges)
    ensures Dropped(conn.db.runs)
            == Dropped(old(conn.db.runs)) + if t.Took? && f.t == "dropped" then f.n.value else 0
  {
    hide Coherent, Advances, Dropped, FiledSince, RowFor, OutcomeOf, DroppedFrom, DeniedFrom, ExchangedFrom, Recordable;
    TakenExactlyWhen(conn, Now(conn), f, request, response, at);
    NothingMoves(conn.db);
    if f.t !in FRAME_TYPES {
      return RefusedFrame;
    }
    if f.t == "dropped" {
      t := TakeDrop(conn, f, at);
      return;
    }
    if f.via !in VIA_VALUES || f.url == "" {
      return RefusedFrame;
    }
    if f.t == "denial" {
      t := TakeDenial(conn, f, at);
    } else {
      t := TakeExchange(conn, f, request, response, at);
    }
  }

  function RunningIn(runs: map<Id, RunRow>): set<Id> {
    set r | r in runs && runs[r].status.Running?
  }

  /** `done` of the runs are aborted, and no other is touched. */
  predicate AbortedTo(was: map<Id, RunRow>, now: map<Id, RunRow>, at: int, reason: string, done: set<Id>) {
    && now.Keys == was.Keys
    && forall r <- was :: now[r] == if r in done then Ended(was[r], Aborted, at, Some(reason)) else was[r]
  }

  lemma AbortedStep(was: map<Id, RunRow>, now: map<Id, RunRow>, at: int, reason: string, done: set<Id>, r: Id)
    requires AbortedTo(was, now, at, reason, done) && r in was && done <= RunningIn(was)
    ensures now[r].status.Running? <==> r in RunningIn(was) && r !in done
    ensures RunKept(now[r], Ended(now[r], Aborted, at, Some(reason)))
            && Ended(now[r], Aborted, at, Some(reason)).issued == now[r].issued
    ensures r !in done ==> AbortedTo(was, now[r := Ended(now[r], Aborted, at, Some(reason))], at, reason, done + {r})
  {
  }

  lemma AbortedMeans(was: map<Id, RunRow>, now: map<Id, RunRow>, at: int, reason: string, done: set<Id>)
    requires AbortedTo(was, now, at, reason, done)
    ensures now.Keys == was.Keys
    ensures done == RunningIn(was) ==> forall r <- now :: now[r] == Ended(was[r], Aborted, at, Some(reason))
  {
  }

  lemma AllAborted(conn: Store, rows: seq<Id>, was: map<Id, RunRow>, done: set<Id>)
    requires conn.Lists() && rows == conn.listing(was.Keys) && done <= RunningIn(was)
    requires Covers(rows[..|rows|], RunningIn(was), done)
    ensures done == RunningIn(was)
  {
    forall r | r in RunningIn(was) ensures r in done {
      assert r in rows && rows[..|rows|] == rows;
    }
  }

  /** Tables a transaction over runs may commit. */
  ghost predicate Pending(conn: Store, tx: Db)
    reads conn`db, conn`given, conn.blobs`files
  {
    Coherent(conn.rules, tx, conn.blobs.files, conn.given) && Advances(conn.db, tx) && RunsOnly(conn.db, tx)
  }

  /** How far the transaction has come; nothing of it is committed yet. */
  ghost predicate Aborting(conn: Store, tx: Db, start: nat, at: int, reason: string, done: set<Id>)
    reads conn`db, conn`ticks, conn`given, conn.blobs`files
  {
    && Pending(conn, tx) && conn.ticks == start + 1 + |done| && Works(conn, start, conn.ticks)
    && AbortedTo(conn.db.runs, tx.runs, at, reason, done) && done <= RunningIn(conn.db.runs)
  }

  method AbortOne(conn: Store, tx: Db, r: Id, at: int, reason: string, done: set<Id>, ghost start: nat)
    returns (ok: bool, now: Db, more: set<Id>)
    requires Aborting(conn, tx, start, at, reason, done) && r in conn.db.runs
    modifies conn`ticks
    ensures ok ==> Aborting(conn, now, start, at, reason, more)
    ensures ok ==> more == if r in RunningIn(conn.db.runs) && r !in done then done + {r} else done
    ensures !ok ==> !Works(conn, start, start + 1 + |RunningIn(conn.db.runs)|)
  {
    ghost var running := RunningIn(conn.db.runs);
    AbortedStep(conn.db.runs, tx.runs, at, reason, done, r);
    assert r in tx.runs;
    hide Pending, Works, AbortedTo, RunningIn, Ended, RunKept;
    now, more := tx, done;
    if !tx.runs[r].status.Running? {
      return true, tx, done;
    }
    Fewer(done, running, r);
    OneMoreWorks(conn, start, conn.ticks);
    ok := conn.Statement();
    if !ok {
      FewerWork(conn, start, conn.ticks, start + 1 + |running|);
      return;
    }
    var row := Ended(tx.runs[r], Aborted, at, Some(reason));
    now, more := SetRun(tx, r, row), done + {r};
    StillPending(conn, tx, r, row);
  }

  lemma StillPending(conn: Store, tx: Db, r: Id, row: RunRow)
    requires Pending(conn, tx) && RunMayBe(tx, r, row)
    ensures Pending(conn, SetRun(tx, r, row))
  {
    hide Coherent, Advances, RunsOnly, RunMayBe;
    var now := SetRun(tx, r, row);
    SetRunKeeps(conn.rules, tx, conn.blobs.files, conn.given, r, row);
    AdvancesOnward(conn.db, tx, now);
    RunsOnlyOnward(conn.db, tx, now);
  }

  /** A target's distress ends every running run at once, or, where the SELECT or
      one of the UPDATEs fails, none. */
  method OnHalted(conn: Store, reason: string, at: int) returns (aborted: Option<set<Id>>)
    requires conn.Valid()
    modifies conn`db, conn`ticks
    ensures conn.Valid() && Advances(old(conn.db), conn.db) && RunsOnly(old(conn.db), conn.db)
    ensures aborted.Some? <==> Works(conn, old(conn.ticks), old(conn.ticks) + 1 + |RunningIn(old(conn.db.runs))|)
    ensures aborted.None? ==> conn.db == old(conn.db)
    ensures aborted.Some? ==> aborted.value == RunningIn(old(conn.db.runs))
    ensures aborted.Some? ==> conn.db.runs.Keys == old(conn.db.runs).Keys
    ensures aborted.Some? ==>
      forall r <- conn.db.runs :: conn.db.runs[r] == Ended(old(conn.db.runs)[r], Aborted, at, Some(reason))
  {
    ghost var start, running := conn.ticks, RunningIn(conn.db.runs);
    assert Works(conn, start, start) && Covers([], running, {});
    assert AbortedTo(conn.db.runs, conn.db.runs, at, reason, {});
    AbortedMeans(conn.db.runs, conn.db.runs, at, reason, {});
    hide Coherent, Advances, RunsOnly, Works, AbortedTo, RunningIn, Covers, Ended;
    NothingMoves(conn.db);
    OneMoreWorks(conn, start, start);
    var ok := conn.Statement();
    if !ok {
      FewerWork(conn, start, start + 1, start + 1 + |running|);
      return None;
    }
    var rows := conn.listing(conn.db.runs.Keys);
    var tx := conn.db;
    var done: set<Id> := {};
    for i := 0 to |rows|
      invariant conn.db == old(conn.db) && Aborting(conn, tx, start, at, reason, done)
      invariant Covers(rows[..i], running, done)
    {
      CoversStep(rows, i, running, done);
      ok, tx, done := AbortOne(conn, tx, rows[i], at, reason, done, start);
      if !ok {
        return None;
      }
    }
    AllAborted(conn, rows, conn.db.runs, done);
    AbortedMeans(conn.db.runs, tx.runs, at, reason, done);
    conn.db := tx;
    aborted := Some(done);
  }

  /** What `bridge.send` comes to for an agent's request. */
  datatype Sent =
    | Answered(status: Option<int>, outcome: string, ms: Option<int>, response: seq<int>)
    | Raises(errorClass: string)

  /** A ValueError is `BadRequest` where no blob was put yet: the request cannot be
      built, or, after the send, the answer's `ms` is no number or the url cannot be
      normalised. It is `BadAnswer` where both were: outcome and status disagree.
      `Unrecorded` is a put or a statement that failed. After the send, these three
      leave a request no row speaks of. */
  datatype Issued = Issued(exchange: Id) | BadRequest | BadAnswer | Refused(reason: string) | Unrecorded

  function IssuedFrom(conn: Store, w: World, run: Id, raw: Option<seq<int>>, verb: string, url: string, sent: Sent)
    : (Issued, World)
  {
    var key := conn.rules.normalise(verb, url);
    if raw.None? then (BadRequest, w)
    else if sent.Raises? then (Refused(sent.errorClass), w)
    else if sent.ms.None? || key.None? then (BadRequest, w)
    else
      var (ok, req, resp, v) := BothFrom(conn, w, raw.value, sent.response);
      if !ok then (Unrecorded, v)
      else if !Tells(sent.outcome, sent.status) then (BadAnswer, v)
      else
        var row := RowFrom(conn.rules, run, verb, url, "send", sent.outcome, sent.status, req, resp);
        var (done, end) := TransactedFrom(conn, v.st, row, key.value);
        (if done.Some? then Issued(done.value.0) else Unrecorded, v.(st := end))
  }

  /** A request that was sent and answered is on file exactly when the answer's
      `ms` is a number, the url can be normalised, outcome and status tell one
      story, the run is there, and no put, statement or id fails. A ValueError comes
      after the send exactly where `ms` or the url cannot be read, or both bodies
      are stored and outcome and status disagree. Every way to miss leaves the
      tables, `requests_issued` among them, as they were. */
  lemma IssuedExactlyWhen(conn: Store, w: World, run: Id, raw: Option<seq<int>>, verb: string, url: string, sent: Sent)
    ensures var (r, z) := IssuedFrom(conn, w, run, raw, verb, url, sent);
      && (raw.Some? && sent.Answered? ==>
            && (r.BadRequest? <==> sent.ms.None? || conn.rules.normalise(verb, url).None?)
            && (r.BadRequest? || r.BadAnswer? <==>
                  || sent.ms.None? || conn.rules.normalise(verb, url).None?
                  || (BothStored(conn, w, raw.value, sent.response) && !Tells(sent.outcome, sent.status)))
            && (r.Issued? <==>
                  && sent.ms.Some? && conn.rules.normalise(verb, url).Some?
                  && BothStored(conn, w, raw.value, sent.response) && Tells(sent.outcome, sent.status)
                  && run in w.st.db.runs
                  && Transactable(conn, w.st.db, w.st.ticks, w.st.minted, conn.rules.normalise(verb, url).value)))
      && (!r.Issued? ==> z.st.db == w.st.db)
  {
    hide BothFrom, TransactedFrom, Tells, Transactable, BothStored;
    var key := conn.rules.normalise(verb, url);
    if raw.Some? && sent.Answered? && sent.ms.Some? && key.Some? {
      BothOnlyFiles(conn, w, w, raw.value, sent.response);
      BothSays(conn, w, raw.value, sent.response);
      var (ok, req, resp, v) := BothFrom(conn, w, raw.value, sent.response);
      assert v.st == w.st;
      var row := RowFrom(conn.rules, run, verb, url, "send", sent.outcome, sent.status, req, resp);
      TransactedExactlyWhen(conn, v.st, row, key.value);
      var (done, end) := TransactedFrom(conn, v.st, row, key.value);
      assert IssuedFrom(conn, w, run, raw, verb, url, sent).1
             == if ok && Tells(sent.outcome, sent.status) then v.(st := end) else v;
    }
  }

  lemma UntoldMovesNothing(conn: Store, s: State, row: ExchangeRow, key: SurfaceKey)
    ensures !Tells(row.outcome, row.status) ==> TransactedFrom(conn, s, row, key) == (None, s)
  {
    hide Tells;
  }

  /** Two answers that leave a sent request off file over any store: one whose `ms`
      is no number, before a blob is put, and one that says "ok" and has no status. */
  lemma SentUnrecorded(conn: Store, w: World, run: Id, raw: seq<int>, verb: string, url: string,
                       status: Option<int>, outcome: string, ms: Option<int>, response: seq<int>)
    ensures IssuedFrom(conn, w, run, Some(raw), verb, url, Answered(status, outcome, None, response)) == (BadRequest, w)
    ensures var (r, z) := IssuedFrom(conn, w, run, Some(raw), verb, url, Answered(None, "ok", ms, response));
      && !r.Issued? && z.st.db == w.st.db
      && (ms.Some? && conn.rules.normalise(verb, url).Some? && BothStored(conn, w, raw, response) ==> r.BadAnswer?)
  {
    hide BothFrom, TransactedFrom, Transactable, BothStored;
    assert !Tells("ok", None);
    IssuedExactlyWhen(conn, w, run, Some(raw), verb, url, Answered(None, "ok", ms, response));
  }

  /** `issue`: the second writer, under the run it is given. `raw` is the request
      as built, or None where building it raised. `IssuedExactlyWhen` says when the
      request is on file. */
  method Issue(conn: Store, run: Id, raw: Option<seq<int>>, verb: string, url: string, sent: Sent) returns (r: Issued)
    requires conn.Valid()
    modifies conn`db, conn`ticks, conn`minted, conn`given, conn.blobs
    ensures conn.Valid() && Advances(old(conn.db), conn.db)
    ensures (r, Now(conn)) == IssuedFrom(conn, old(Now(conn)), run, raw, verb, url, sent)
    ensures raw.Some? && sent.Answered? ==>
      && (r.BadRequest? <==> sent.ms.None? || conn.rules.normalise(verb, url).None?)
      && (r.BadRequest? || r.BadAnswer? <==>
            || sent.ms.None? || conn.rules.normalise(verb, url).None?
            || (BothStored(conn, old(Now(conn)), raw.value, sent.response) && !Tells(sent.outcome, sent.status)))
    ensures r.Issued? ==>
      && raw.Some? && sent.Answered? && r.exchange in conn.db.exchanges && conn.db.exchanges[r.exchange].run == run
      && Filed(conn.rules, old(conn.db), conn.db, conn.blobs.files, conn.given, r.exchange,
               Deed(verb, url, "send", sent.outcome, sent.status, raw.value, sent.response))
    ensures !r.Issued? ==> conn.db == old(conn.db)
    ensures r.BadRequest? || r.Refused? ==> conn.blobs.files == old(conn.blobs.files)
    ensures r.Refused? <==> raw.Some? && sent.Raises?
    ensures r.Refused? ==> r.reason == sent.errorClass
    ensures Dropped(conn.db.runs) == Dropped(old(conn.db.runs))
  {
    hide Coherent, Advances, Dropped, Filed, Names, BothFrom, BothStored, TransactedFrom, Tells, Transactable;
    IssuedExactlyWhen(conn, Now(conn), run, raw, verb, url, sent);
    NothingMoves(conn.db);
    if raw.None? {
      return BadRequest;
    }
    if sent.Raises? {
      return Refused(sent.errorClass);
    }
    var key := conn.rules.normalise(verb, url);
    if sent.ms.None? || key.None? {
      return BadRequest;
    }
    var ok, reqBlob, respBlob := PutBoth(conn, raw.value, sent.response);
    if !ok {
      return Unrecorded;
    }
    UntoldMovesNothing(conn, conn.Now(),
      RowFrom(conn.rules, run, verb, url, "send", sent.outcome, sent.status, reqBlob, respBlob), key.value);
    var x := WriteExchange(conn, run, verb, url, "send", sent.outcome, sent.status, reqBlob, respBlob, key.value,
                           raw.value, sent.response);
    r := if x.Some? then Issued(x.value) else if !Tells(sent.outcome, sent.status) then BadAnswer else Unrecorded;
  }

  // ---- the read thread's side ----

  /** A frame was taken, or was not and its loss is on a run's `dropped_total`, or
      was not and only `exchange_errors` knows. */
  datatype Loss = Kept | Counted | Lost

  function Reported(f: Frame): nat {
    if f.t == "dropped" && f.n.Some? && f.n.value >= 1 then f.n.value else 0
  }

  function DropFrame(source: string): Frame {
    Frame("dropped", source, "", "", "", Some(1), "", None, "", None)
  }

  type Delivery = (Frame, Option<(seq<int>, seq<int>)>)

  /** What the sink is handed: an exchange frame with both its bodies, if they
      split, and any other with none. */
  function FirstFrom(conn: Store, w: World, d: Delivery, at: int): (Taken, World) {
    if d.0.t != "exchange" then HandledFrom(conn, w, d.0, [], [], at)
    else if d.1.None? then (Raised, w)
    else HandledFrom(conn, w, d.0, d.1.value.0, d.1.value.1, at)
  }

  function LossFrom(conn: Store, w: World, d: Delivery, at: int): (Loss, World) {
    var (first, mid) := FirstFrom(conn, w, d, at);
    if first.Took? then (Kept, mid)
    else if d.0.t == "dropped" then (Lost, mid)
    else
      var (second, end) := HandledFrom(conn, mid, DropFrame(d.0.source), [], [], at);
      (if second.Took? then Counted else Lost, end)
  }

  function LossesFrom(conn: Store, w: World, frames: seq<Delivery>, at: nat -> int): (r: (seq<Loss>, World))
    ensures |r.0| == |frames|
  {
    if frames == [] then ([], w)
    else
      var n := |frames| - 1;
      var (losses, z) := LossesFrom(conn, w, frames[..n], at);
      var (loss, end) := LossFrom(conn, z, frames[n], at(n));
      (losses + [loss], end)
  }

  function Times(losses: seq<Loss>, what: Loss): nat {
    if losses == [] then 0
    else Times(losses[..|losses| - 1], what) + if losses[|losses| - 1] == what then 1 else 0
  }

  lemma LossesStep(conn: Store, w: World, frames: seq<Delivery>, at: nat -> int, i: nat)
    requires i < |frames|
    ensures var (losses, z) := LossesFrom(conn, w, frames[..i], at);
      var (loss, end) := LossFrom(conn, z, frames[i], at(i));
      && LossesFrom(conn, w, frames[..i + 1], at) == (losses + [loss], end)
      && Times(losses + [loss], Kept) == Times(losses, Kept) + (if loss == Kept then 1 else 0)
      && Times(losses + [loss], Counted) == Times(losses, Counted) + (if loss == Counted then 1 else 0)
      && Times(losses + [loss], Lost) == Times(losses, Lost) + (if loss == Lost then 1 else 0)
  {
    hide LossFrom;
    assert frames[..i + 1][..i] == frames[..i];
    var losses, z := LossesFrom(conn, w, frames[..i], at).0, LossesFrom(conn, w, frames[..i], at).1;
    var loss := LossFrom(conn, z, frames[i], at(i)).0;
    assert (losses + [loss])[..i] == losses;
  }

  /** The tallies of the first `i` deliveries, and the store after them. */
  ghost predicate Served(conn: Store, was: World, now: World, frames: seq<Delivery>, at: nat -> int, i: nat,
                         kept: nat, counted: nat, lost: nat)
    requires i <= |frames|
  {
    var (losses, end) := LossesFrom(conn, was, frames[..i], at);
    now == end && kept == Times(losses, Kept) && counted == Times(losses, Counted) && lost == Times(losses, Lost)
  }

  lemma ServedOn(conn: Store, was: World, now: World, frames: seq<Delivery>, at: nat -> int, i: nat,
                 kept: nat, counted: nat, lost: nat)
    requires i < |frames| && Served(conn, was, now, frames, at, i, kept, counted, lost)
    ensures var (loss, end) := LossFrom(conn, now, frames[i], at(i));
      Served(conn, was, end, frames, at, i + 1,
             if loss == Kept then kept + 1 else kept, if loss == Counted then counted + 1 else counted,
             if loss == Lost then lost + 1 else lost)
  {
    hide LossFrom, LossesFrom, Times;
    LossesStep(conn, was, frames, at, i);
  }

  lemma ServedAll(conn: Store, was: World, now: World, frames: seq<Delivery>, at: nat -> int,
                  kept: nat, counted: nat, lost: nat)
    requires Served(conn, was, now, frames, at, |frames|, kept, counted, lost)
    ensures var (losses, end) := LossesFrom(conn, was, frames, at);
      now == end && kept == Times(losses, Kept) && counted == Times(losses, Counted) && lost == Times(losses, Lost)
  {
    assert frames[..|frames|] == frames;
  }

  /** A delivery the sink takes: its bodies split, it can be read, and nothing on
      the way to its row fails. */
  ghost predicate Takable(conn: Store, w: World, d: Delivery, at: int) {
    && (d.0.t == "exchange" ==> d.1.Some?) && !Unreadable(conn.rules, d.0)
    && Recordable(conn, w, d.0, if d.0.t == "exchange" then d.1.value.0 else [],
                  if d.0.t == "exchange" then d.1.value.1 else [], at)
  }

  /** A frame is kept exactly when the sink takes it. One that is not, and is no drop
      report itself, adds one to `dropped_total` exactly when the sink, as the
      failed attempt left it, still takes a drop frame: a run for its source can be
      had and the two statements go through. */
  lemma LossExactlyWhen(conn: Store, w: World, d: Delivery, at: int)
    ensures var loss := LossFrom(conn, w, d, at).0;
      && (loss.Kept? <==> Takable(conn, w, d, at))
      && (!Takable(conn, w, d, at) && d.0.t != "dropped" ==>
            (loss.Counted? <==> Servable(conn, FirstFrom(conn, w, d, at).1.st, d.0.source, at, 1)))
      && (d.0.t == "dropped" ==> !loss.Counted?)
  {
    hide HandledFrom, Recordable, Servable, Unreadable;
    var (request, response) := if d.0.t == "exchange" && d.1.Some? then d.1.value else ([], []);
    TakenExactlyWhen(conn, w, d.0, request, response, at);
    var mid := FirstFrom(conn, w, d, at).1;
    TakenExactlyWhen(conn, mid, DropFrame(d.0.source), [], [], at);
    DropFrameTaken(conn, mid, d.0.source, at);
  }

  lemma DropFrameTaken(conn: Store, w: World, source: string, at: int)
    ensures !Unreadable(conn.rules, DropFrame(source))
    ensures Recordable(conn, w, DropFrame(source), [], [], at) <==> Servable(conn, w.st, source, at, 1)
  {
    hide Servable;
  }

  // ---- a store that works ----

  /** No statement fails from here on, and no id yet to be drawn is a run's. */
  ghost predicate Sound(conn: Store, s: State) {
    && (forall k :: s.ticks <= k ==> !conn.fails(k))
    && (forall k :: s.minted <= k ==> conn.ids(k) !in s.db.runs)
    && (forall j, k :: s.minted <= j < k ==> conn.ids(j) != conn.ids(k))
  }

  /** From `s` to `z` runs are new only under ids drawn in between. */
  ghost predicate RunsDrawn(conn: Store, s: State, z: State) {
    && s.ticks <= z.ticks && s.minted <= z.minted
    && forall r <- z.db.runs :: r in s.db.runs || exists j :: s.minted <= j < z.minted && r == conn.ids(j)
  }

  lemma StillSound(conn: Store, s: State, z: State)
    requires Sound(conn, s) && RunsDrawn(conn, s, z)
    ensures Sound(conn, z)
  {
  }

  lemma DrawnOnward(conn: Store, a: State, b: State, c: State)
    requires RunsDrawn(conn, a, b) && RunsDrawn(conn, b, c)
    ensures RunsDrawn(conn, a, c)
  {
  }

  lemma OpenedDraws(conn: Store, s: State, kind: string, at: int)
    ensures RunsDrawn(conn, s, OpenedFrom(conn, s, kind, at).1)
  {
    assert s.minted <= s.minted < s.minted + 1;
  }

  lemma UpdatedDraws(conn: Store, s: State, r: Id, row: RunRow)
    ensures RunsDrawn(conn, s, UpdatedFrom(conn, s, r, row).1)
  {
  }

  lemma CurrentDraws(conn: Store, s: State, kind: string, at: int)
    ensures RunsDrawn(conn, s, CurrentFrom(conn, s, kind, at).1)
  {
    var asked := s.(ticks := s.ticks + 1);
    assert RunsDrawn(conn, s, asked);
    hide RunsDrawn, OpenedFrom, UpdatedFrom, NewestOf;
    OpenedDraws(conn, asked, kind, at);
    DrawnOnward(conn, s, asked, OpenedFrom(conn, asked, kind, at).1);
    var newest := NewestOf(conn, s.db.runs, kind);
    if newest.Some? {
      var row := s.db.runs[newest.value];
      var ended := Ended(row, Completed, LastHeard(row), Some("idle"));
      UpdatedDraws(conn, asked, newest.value, ended);
      var closed := UpdatedFrom(conn, asked, newest.value, ended).1;
      DrawnOnward(conn, s, asked, closed);
      OpenedDraws(conn, closed, kind, at);
      DrawnOnward(conn, s, closed, OpenedFrom(conn, closed, kind, at).1);
    }
  }

  lemma ServedDraws(conn: Store, s: State, source: string, at: int)
    ensures RunsDrawn(conn, s, ServedFrom(conn, s, source, at).1)
  {
    hide RunsDrawn, CurrentFrom, UpdatedFrom;
    CurrentDraws(conn, s, KindOf(source), at);
    var (run, z) := CurrentFrom(conn, s, KindOf(source), at);
    if run.Done? && run.value in z.db.runs {
      var row := Beaten(z.db.runs[run.value], at);
      UpdatedDraws(conn, z, run.value, row);
      DrawnOnward(conn, s, z, UpdatedFrom(conn, z, run.value, row).1);
    }
  }

  lemma DroppedDraws(conn: Store, s: State, f: Frame, at: int)
    ensures RunsDrawn(conn, s, DroppedFrom(conn, s, f, at).1)
  {
    assert RunsDrawn(conn, s, s);
    hide RunsDrawn, ServedFrom, UpdatedFrom;
    ServedDraws(conn, s, f.source, at);
    var (run, z) := ServedFrom(conn, s, f.source, at);
    if f.n.Some? && f.n.value >= 1 && run.Some? && run.value in z.db.runs {
      var row := z.db.runs[run.value];
      UpdatedDraws(conn, z, run.value, row.(dropped := row.dropped + f.n.value));
      DrawnOnward(conn, s, z, DroppedFrom(conn, s, f, at).1);
    }
  }

  lemma DeniedDraws(conn: Store, s: State, f: Frame, at: int)
    ensures RunsDrawn(conn, s, DeniedFrom(conn, s, f, at).1)
  {
    hide ServedFrom, RowFor;
    ServedDraws(conn, s, f.source, at);
    var z := ServedFrom(conn, s, f.source, at).1;
    SameRunsDraw(conn, s, z, DeniedFrom(conn, s, f, at).1);
  }

  lemma SameRunsDraw(conn: Store, s: State, z: State, end: State)
    requires RunsDrawn(conn, s, z)
    ensures z.ticks <= end.ticks && z.minted <= end.minted && end.db.runs.Keys == z.db.runs.Keys ==>
      RunsDrawn(conn, s, end)
  {
    if z.ticks <= end.ticks && z.minted <= end.minted && end.db.runs.Keys == z.db.runs.Keys {
      assert RunsDrawn(conn, z, end);
      DrawnOnward(conn, s, z, end);
    }
  }

  lemma TransactedDraws(conn: Store, s: State, row: ExchangeRow, key: SurfaceKey)
    ensures RunsDrawn(conn, s, TransactedFrom(conn, s, row, key).1)
  {
    hide Tells, SurfaceOf;
  }

  lemma BothKeepsTables(conn: Store, w: World, request: seq<int>, response: seq<int>)
    ensures BothFrom(conn, w, request, response).3.st == w.st
  {
  }

  lemma ExchangedDraws(conn: Store, w: World, f: Frame, request: seq<int>, response: seq<int>, at: int)
    ensures RunsDrawn(conn, w.st, ExchangedFrom(conn, w, f, request, response, at).1.st)
  {
    assert RunsDrawn(conn, w.st, w.st);
    hide RunsDrawn, ServedFrom, BothFrom, TransactedFrom, OutcomeOf, OUTCOMES;
    ServedDraws(conn, w.st, f.source, at);
    var (run, z) := ServedFrom(conn, w.st, f.source, at);
    BothKeepsTables(conn, w.(st := z), request, response);
    var key := conn.rules.normalise(f.verb, f.url);
    if run.Some? && key.Some? {
      var (ok, req, resp, v) := BothFrom(conn, w.(st := z), request, response);
      var row := RowFrom(conn.rules, run.value, f.verb, f.url, f.via, OutcomeOf(f.outcome), f.status, req, resp);
      TransactedDraws(conn, z, row, key.value);
      DrawnOnward(conn, w.st, z, TransactedFrom(conn, z, row, key.value).1);
    }
  }

  lemma HandledDraws(conn: Store, w: World, f: Frame, request: seq<int>, response: seq<int>, at: int)
    ensures RunsDrawn(conn, w.st, HandledFrom(conn, w, f, request, response, at).1.st)
  {
    assert RunsDrawn(conn, w.st, w.st);
    hide RunsDrawn, DroppedFrom, DeniedFrom, ExchangedFrom;
    DroppedDraws(conn, w.st, f, at);
    DeniedDraws(conn, w.st, f, at);
    ExchangedDraws(conn, w, f, request, response, at);
  }

  lemma SoundServes(conn: Store, s: State, source: string, at: int, more: nat)
    requires Sound(conn, s)
    ensures Servable(conn, s, source, at, more)
  {
    hide Reuses, ServeCost;
  }

  lemma SoundCounts(conn: Store, w: World, d: Delivery, at: int)
    requires Sound(conn, w.st)
    ensures var (loss, end) := LossFrom(conn, w, d, at);
      Sound(conn, end.st) && (loss == Lost <==> d.0.t == "dropped" && Unreadable(conn.rules, d.0))
  {
    hide Sound, RunsDrawn, HandledFrom, Servable, Unreadable, Tells;
    LossExactlyWhen(conn, w, d, at);
    var (request, response) := if d.0.t == "exchange" && d.1.Some? then d.1.value else ([], []);
    HandledDraws(conn, w, d.0, request, response, at);
    var mid := FirstFrom(conn, w, d, at).1;
    if mid != w {
      StillSound(conn, w.st, mid.st);
    }
    SoundServes(conn, mid.st, d.0.source, at, 1);
    SoundServes(conn, w.st, d.0.source, at, 1);
    HandledDraws(conn, mid, DropFrame(d.0.source), [], [], at);
    StillSound(conn, mid.st, HandledFrom(conn, mid, DropFrame(d.0.source), [], [], at).1.st);
  }

  /** Over a store that works no frame is lost, however many blobs fail and rows are
      refused: each is kept or is one more drop. All that goes unaccounted is a drop
      report that cannot be read. */
  lemma {:induction false} WorkingStoreLosesNothing(conn: Store, w: World, frames: seq<Delivery>, at: nat -> int)
    requires Sound(conn, w.st)
    ensures var (losses, end) := LossesFrom(conn, w, frames, at);
      && Sound(conn, end.st)
      && forall i :: 0 <= i < |frames| ==>
           (losses[i] == Lost <==> frames[i].0.t == "dropped" && Unreadable(conn.rules, frames[i].0))
  {
    hide Sound, LossFrom, Unreadable;
    if frames != [] {
      var n := |frames| - 1;
      WorkingStoreLosesNothing(conn, w, frames[..n], at);
      SoundCounts(conn, LossesFrom(conn, w, frames[..n], at).1, frames[n], at(n));
    }
  }

  /** The half of `BridgeServer` that hands unsolicited frames to the store. */
  class Sink {
    const conn: Store
    var errors: nat

    constructor (conn: Store)
      ensures this.conn == conn && errors == 0
    {
      this.conn, errors := conn, 0;
    }

    /** `_capture` and `_count_as_dropped`. `bodies` is None where the two-body
        split refuses the frame. `LossExactlyWhen` says which loss it is. */
    method Take(f: Frame, bodies: Option<(seq<int>, seq<int>)>, at: int) returns (loss: Loss)
      requires conn.Valid()
      modifies `errors, conn`db, conn`ticks, conn`minted, conn`given, conn.blobs
      ensures conn.Valid() && Advances(old(conn.db), conn.db)
      ensures (loss, Now(conn)) == LossFrom(conn, old(Now(conn)), (f, bodies), at)
      ensures loss.Kept? <==> Takable(conn, old(Now(conn)), (f, bodies), at)
      ensures !loss.Kept? && f.t != "dropped" ==>
        (loss.Counted? <==> Servable(conn, FirstFrom(conn, old(Now(conn)), (f, bodies), at).1.st, f.source, at, 1))
      ensures loss.Kept? ==>
        errors == old(errors) && Dropped(conn.db.runs) == Dropped(old(conn.db.runs)) + Reported(f)
      ensures loss.Counted? ==>
        f.t != "dropped" && errors == old(errors) + 1 && Dropped(conn.db.runs) == Dropped(old(conn.db.runs)) + 1
      ensures loss.Lost? ==> errors == old(errors) + if f.t == "dropped" then 1 else 2
      ensures loss.Lost? ==> Dropped(conn.db.runs) == Dropped(old(conn.db.runs))
      ensures f.t == "exchange" && bodies.None? ==> !loss.Kept?
      ensures Unreadable(conn.rules, f) ==> !loss.Kept?
      ensures loss.Kept? ==> f.t in FRAME_TYPES
    {
      hide Coherent, Advances, Dropped, FiledSince, RowFor, HandledFrom, Recordable, Takable, Servable;
      LossExactlyWhen(conn, Now(conn), (f, bodies), at);
      NothingMoves(conn.db);
      var t := Raised;
      if f.t != "exchange" || bodies.Some? {
        var (request, response) := if f.t == "exchange" then bodies.value else ([], []);
        t := OnExchange(conn, f, request, response, at);
      }
      if t.Took? {
        return Kept;
      }
      errors := errors + 1;
      if f.t == "dropped" {
        return Lost;
      }
      ghost var was := old(conn.db);
      ghost var mid := conn.db;
      t := OnExchange(conn, DropFrame(f.source), [], [], at);
      AdvancesOnward(was, mid, conn.db);
      if t.Took? {
        return Counted;
      }
      errors := errors + 1;
      loss := Lost;
    }

    /** Over any frames, each is accounted for exactly once, and the drops on the
        runs are those reported and those this side counted. */
    method Serve(frames: seq<Delivery>, at: nat -> int)
      returns (kept: nat, counted: nat, lost: nat, ghost reported: nat)
      requires conn.Valid()
      modifies `errors, conn`db, conn`ticks, conn`minted, conn`given, conn.blobs
      ensures conn.Valid() && Advances(old(conn.db), conn.db)
      ensures var (losses, end) := LossesFrom(conn, old(Now(conn)), frames, at);
        && Now(conn) == end
        && (kept, counted, lost) == (Times(losses, Kept), Times(losses, Counted), Times(losses, Lost))
      ensures kept + counted + lost == |frames|
      ensures old(errors) + counted + lost <= errors <= old(errors) + counted + 2 * lost
      ensures Dropped(conn.db.runs) == Dropped(old(conn.db.runs)) + reported + counted
      ensures (forall i :: 0 <= i < |frames| ==> frames[i].0.t != "dropped") ==>
        reported == 0 && errors == old(errors) + counted + 2 * lost
    {
      ghost var start := Now(conn);
      assert frames[..0] == [] && Served(conn, start, start, frames, at, 0, 0, 0, 0);
      hide Coherent, Advances, Dropped, LossFrom, LossesFrom, Times, Served, Store.Valid;
      NothingMoves(conn.db);
      kept, counted, lost, reported := 0, 0, 0, 0;
      for i := 0 to |frames|
        invariant conn.Valid() && Advances(old(conn.db), conn.db)
        invariant Served(conn, start, Now(conn), frames, at, i, kept, counted, lost)
        invariant kept + counted + lost == i
        invariant old(errors) + counted + lost <= errors <= old(errors) + counted + 2 * lost
        invariant Dropped(conn.db.runs) == Dropped(old(conn.db.runs)) + reported + counted
        invariant (forall j :: 0 <= j < i ==> frames[j].0.t != "dropped") ==>
          reported == 0 && errors == old(errors) + counted + 2 * lost
      {
        ghost var was, mid := old(conn.db), conn.db;
        ServedOn(conn, start, Now(conn), frames, at, i, kept, counted, lost);
        var (f, bodies) := frames[i];
        var loss := Take(f, bodies, at(i));
        AdvancesOnward(was, mid, conn.db);
        match loss {
          case Kept =>
            kept := kept + 1;
            reported := reported + Reported(f);
          case Counted => counted := counted + 1;
          case Lost => lost := lost + 1;
        }
      }
      ServedAll(conn, start, Now(conn), frames, at, kept, counted, lost);
    }
  }
}
