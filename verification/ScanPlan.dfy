/** What a scan should do with every (surface, check) pair, and what its ledgers
    mean, as functions of the world the run meets. `hx.scan` is proved against
    these in `Scan`; what they imply is proved here. */
module ScanPlan {
  import opened Options
  import opened Insertion
  import opened IdentityTrace
  import opened DedupeKeys

  datatype Hook = Probes | OnSurface | NoHook

  /** `kinds` are the insertion kinds the check declares. */
  datatype Check = Check(id: string, hook: Hook, kinds: set<string>)

  type Origin = (string, string, int)

  /** One `surface` row with what the store still holds of it: the ids of its
      exchanges, the concrete path its exemplar request yields, and the insertion
      points derived from that request. */
  datatype Surface = Surface(
    id: string, verb: string, scheme: string, host: string, port: int, template: string,
    exemplar: Option<string>, exchanges: set<string>,
    probePath: Option<string>, points: seq<Insertion>)

  function OriginOf(s: Surface): Origin {
    (s.scheme, s.host, s.port)
  }

  datatype Candidate = Candidate(issue: string, scope: Scope, point: Option<Insertion>)

  datatype Said = SaidClean | SaidFinding | SaidInconclusive

  datatype Verdict = Verdict(said: Said, candidates: seq<Candidate>, considered: seq<string>)

  /** How a check comes back. `writesFailAt` is the first candidate whose store
      write fails; past the end, none does. `Interrupted` is what no
      `except Exception` catches. */
  datatype Ending =
    | Returns(verdict: Verdict, writesFailAt: nat)
    | ReturnsNone
    | ReturnsJunk
    | Refuses
    | Raises
    | Interrupted

  /** The paths a check probes, in order, and how it then comes back. */
  datatype Behaviour = Behaviour(paths: seq<string>, ending: Ending)

  datatype Statement = Opening | ClosingSkip | Closing

  type Pair = (nat, nat)

  /** Everything a run meets and does not decide. */
  datatype World = World(
    surfaces: seq<Surface>, checks: seq<Check>, hasBridge: bool,
    chosen: set<nat>, late: set<nat>, heartbeatFails: set<nat>,
    behave: Pair -> Behaviour, storeFails: set<(Pair, Statement)>, markFails: bool)

  predicate InWorld(w: World, p: Pair) {
    p.0 < |w.surfaces| && p.1 < |w.checks|
  }

  predicate AllIn(w: World, done: seq<Pair>) {
    forall k :: 0 <= k < |done| ==> InWorld(w, done[k])
  }

  /** The points of the kinds a check wants, and of those the ones the send path
      will carry a probe to. */
  function Declared(points: seq<Insertion>, kinds: set<string>): seq<Insertion> {
    if points == [] then []
    else if points[0].kind in kinds then [points[0]] + Declared(points[1..], kinds)
    else Declared(points[1..], kinds)
  }

  function Usable(points: seq<Insertion>): seq<Insertion> {
    if points == [] then []
    else if Unprobeable(points[0]) then Usable(points[1..])
    else [points[0]] + Usable(points[1..])
  }

  /** Why a check that probes is skipped on a surface, decided before a sender
      exists; None when it is given one. */
  function SkipReason(hasBridge: bool, s: Surface, c: Check): Option<string> {
    if !hasBridge then Some("no_bridge")
    else if s.verb != "GET" then Some("not_a_get_surface")
    else if s.exemplar.None? || s.exemplar.value == "" || s.exemplar.value !in s.exchanges then Some("no_exemplar")
    else if s.probePath.None? then Some("no_probe_path")
    else PointReason(c.kinds, Declared(s.points, c.kinds))
  }

  function PointReason(kinds: set<string>, declared: seq<Insertion>): Option<string> {
    if kinds == {} || Usable(declared) != [] then None
    else if declared != [] then Some("no_probeable_insertion_point")
    else Some("no_insertion_point")
  }

  lemma {:induction false} InDeclared(points: seq<Insertion>, kinds: set<string>, i: Insertion)
    ensures i in Declared(points, kinds) <==> i in points && i.kind in kinds
  {
    if points != [] {
      InDeclared(points[1..], kinds, i);
      assert points == [points[0]] + points[1..];
    }
  }

  lemma {:induction false} InUsable(points: seq<Insertion>, i: Insertion)
    ensures i in Usable(points) <==> i in points && !Unprobeable(i)
  {
    if points != [] {
      InUsable(points[1..], i);
      assert points == [points[0]] + points[1..];
    }
  }

  /** A probing check is given a sender exactly when there is a bridge, a GET
      surface whose exemplar is on file and yields a path, and, if it wants
      insertion points, one of a wanted kind that the send path will carry. */
  lemma SenderExactlyWhen(hasBridge: bool, s: Surface, c: Check)
    ensures SkipReason(hasBridge, s, c).None? <==>
      && hasBridge && s.verb == "GET" && s.probePath.Some?
      && s.exemplar.Some? && s.exemplar.value != "" && s.exemplar.value in s.exchanges
      && (c.kinds == {} || exists i <- s.points :: i.kind in c.kinds && !Unprobeable(i))
  {
    var declared := Declared(s.points, c.kinds);
    if Usable(declared) != [] {
      var i := Usable(declared)[0];
      InUsable(declared, i);
      InDeclared(s.points, c.kinds, i);
    }
    if exists i <- s.points :: i.kind in c.kinds && !Unprobeable(i) {
      var i :| i in s.points && i.kind in c.kinds && !Unprobeable(i);
      InDeclared(s.points, c.kinds, i);
      InUsable(declared, i);
    }
  }

  datatype Fate =
    | Skips(reason: string)
    | Crashes
    | IsRefused
    | Answers(verdict: Verdict, writesFailAt: nat)
    | Escapes

  function FateOf(w: World, p: Pair): Fate
    requires InWorld(w, p)
  {
    var c := w.checks[p.1];
    var why := SkipReason(w.hasBridge, w.surfaces[p.0], c);
    if p.0 in w.late then Skips("budget")
    else if c.hook == Probes && why.Some? then
      if (p, ClosingSkip) in w.storeFails then Crashes else Skips(why.value)
    else if c.hook == NoHook then Crashes
    else match w.behave(p).ending
      case Returns(v, n) => Answers(v, n)
      case ReturnsNone => Crashes
      case ReturnsJunk => Crashes
      case Refuses => IsRefused
      case Raises => Crashes
      case Interrupted => Escapes
  }

  /** A sender is made for the pair, so its row has requests to count. */
  predicate HasSender(w: World, p: Pair)
    requires InWorld(w, p)
  {
    p.0 !in w.late && w.checks[p.1].hook == Probes && SkipReason(w.hasBridge, w.surfaces[p.0], w.checks[p.1]).None?
  }

  /** Such a row: of a surface in time, with a check that probes, past all six reasons
      to skip it. */
  lemma HasSenderExactlyWhen(w: World, p: Pair)
    requires InWorld(w, p)
    ensures var s, c := w.surfaces[p.0], w.checks[p.1];
      HasSender(w, p) <==>
        && p.0 !in w.late && c.hook.Probes?
        && w.hasBridge && s.verb == "GET" && s.probePath.Some?
        && s.exemplar.Some? && s.exemplar.value != "" && s.exemplar.value in s.exchanges
        && (c.kinds == {} || exists i <- s.points :: i.kind in c.kinds && !Unprobeable(i))
  {
    hide SkipReason, Unprobeable;
    SenderExactlyWhen(w.hasBridge, w.surfaces[p.0], w.checks[p.1]);
  }

  datatype RowVerdict = Pending | Skipped(reason: string) | Clean | Finding | Inconclusive | Error

  datatype CheckRow = CheckRow(at: Pair, verdict: RowVerdict, requests: nat, sender: bool)

  /** A pair at which the pass is left: its row cannot be opened, its handling is
      left by something nothing in the loop catches, or its row cannot be closed. */
  predicate Stops(w: World, p: Pair)
    requires InWorld(w, p)
  {
    || (p, Opening) in w.storeFails
    || FateOf(w, p).Escapes?
    || ((p.0 in w.late || !FateOf(w, p).Skips?) && (p, Closing) in w.storeFails)
  }

  lemma LateStops(w: World, p: Pair)
    requires InWorld(w, p) && p.0 in w.late
    ensures Stops(w, p) <==> (p, Opening) in w.storeFails || (p, Closing) in w.storeFails
  {
  }

  /** A surface the pass gets through. */
  predicate Passable(w: World, i: nat)
    requires i < |w.surfaces|
  {
    (i !in w.late ==> i !in w.heartbeatFails) && forall j :: 0 <= j < |w.checks| ==> !Stops(w, (i, j))
  }

  predicate Smooth(w: World, n: nat)
    requires n <= |w.surfaces|
  {
    forall i :: 0 <= i < n && i in w.chosen ==> Passable(w, i)
  }

  /** The last row, opened and still pending, closed. */
  function Close(rows: seq<CheckRow>, verdict: RowVerdict, requests: nat, sender: bool): seq<CheckRow>
    requires rows != []
  {
    rows[..|rows| - 1] + [CheckRow(rows[|rows| - 1].at, verdict, requests, sender)]
  }

  predicate WritesAll(v: Verdict, failAt: nat) {
    v.said == SaidFinding ==> |v.candidates| <= failAt
  }

  /** The verdict a pair's row is closed with. */
  function VerdictOf(f: Fate): RowVerdict {
    match f
    case Skips(reason) => Skipped(reason)
    case Crashes => Error
    case IsRefused => Inconclusive
    case Answers(v, n) =>
      if !WritesAll(v, n) then Error
      else (match v.said case SaidClean => Clean case SaidFinding => Finding case SaidInconclusive => Inconclusive)
    case Escapes => Pending
  }

  lemma SaysItsFate(w: World, p: Pair)
    requires InWorld(w, p)
    ensures var f, v := FateOf(w, p), VerdictOf(FateOf(w, p));
      && (v == Pending <==> f.Escapes?) && (v.Skipped? <==> f.Skips?)
      && (f.Skips? ==> v.reason == f.reason && !HasSender(w, p))
  {
  }

  /** What a check that is called comes to, and what becomes of one that is not: the
      verdict on its row, cause by cause. */
  lemma VerdictByCause(w: World, p: Pair)
    requires InWorld(w, p) && p.0 !in w.late
    ensures var v, c, e := VerdictOf(FateOf(w, p)), w.checks[p.1], w.behave(p).ending;
      var why := if c.hook == Probes then SkipReason(w.hasBridge, w.surfaces[p.0], c) else None;
      var written := (p, ClosingSkip) !in w.storeFails;
      var called := c.hook != NoHook && why.None?;
      var wrote := e.Returns? && |e.verdict.candidates| <= e.writesFailAt;
      && (forall r :: v == Skipped(r) <==> why == Some(r) && written)
      && (v == Clean <==> called && e.Returns? && e.verdict.said == SaidClean)
      && (v == Finding <==> called && e.Returns? && e.verdict.said == SaidFinding && wrote)
      && (v == Inconclusive <==> called && (e.Refuses? || (e.Returns? && e.verdict.said == SaidInconclusive)))
      && (v == Pending <==> called && e.Interrupted?)
      && (v == Error <==>
            || (why.Some? && !written) || c.hook == NoHook
            || (called && (e.ReturnsNone? || e.ReturnsJunk? || e.Raises?))
            || (called && e.Returns? && e.verdict.said == SaidFinding && !wrote))
  {
    hide SkipReason;
  }

  /** The pass is left at a pair whose row cannot be opened, whose check is
      interrupted, or whose row has to be closed and cannot be; a probing check that is
      skipped has its row closed by the skip. */
  lemma StopsByCause(w: World, p: Pair)
    requires InWorld(w, p)
    ensures var c := w.checks[p.1];
      var why := if c.hook == Probes then SkipReason(w.hasBridge, w.surfaces[p.0], c) else None;
      var late, written := p.0 in w.late, (p, ClosingSkip) !in w.storeFails;
      Stops(w, p) <==>
        || (p, Opening) in w.storeFails
        || (!late && c.hook != NoHook && why.None? && w.behave(p).ending.Interrupted?)
        || ((p, Closing) in w.storeFails && (late || why.None? || !written))
  {
    hide SkipReason;
  }

  /** Why a probing check is skipped: the first of these that is so. */
  lemma SkippedBecause(hasBridge: bool, s: Surface, c: Check)
    ensures var why := SkipReason(hasBridge, s, c);
      var onFile := s.exemplar.Some? && s.exemplar.value != "" && s.exemplar.value in s.exchanges;
      var sendable := hasBridge && s.verb == "GET" && onFile && s.probePath.Some?;
      && (why == Some("no_bridge") <==> !hasBridge)
      && (why == Some("not_a_get_surface") <==> hasBridge && s.verb != "GET")
      && (why == Some("no_exemplar") <==> hasBridge && s.verb == "GET" && !onFile)
      && (why == Some("no_probe_path") <==> hasBridge && s.verb == "GET" && onFile && s.probePath.None?)
      && (why == Some("no_insertion_point") <==>
            sendable && c.kinds != {} && forall i <- s.points :: i.kind !in c.kinds)
      && (why == Some("no_probeable_insertion_point") <==>
            && sendable && c.kinds != {} && (exists i <- s.points :: i.kind in c.kinds)
            && forall i <- s.points :: i.kind in c.kinds ==> Unprobeable(i))
      && (why.Some? ==> why.value in {"no_bridge", "not_a_get_surface", "no_exemplar", "no_probe_path",
                                      "no_insertion_point", "no_probeable_insertion_point"})
  {
    SenderExactlyWhen(hasBridge, s, c);
    DeclaredNone(s.points, c.kinds);
    hide Declared, Usable, Unprobeable;
  }

  lemma DeclaredNone(points: seq<Insertion>, kinds: set<string>)
    ensures Declared(points, kinds) == [] <==> forall i <- points :: i.kind !in kinds
  {
    if Declared(points, kinds) != [] {
      InDeclared(points, kinds, Declared(points, kinds)[0]);
    }
    forall i | i in points && Declared(points, kinds) == [] ensures i.kind !in kinds {
      InDeclared(points, kinds, i);
    }
  }

  // ---- which rows a run writes ----

  function Block(i: nat, m: nat): (ps: seq<Pair>)
    ensures |ps| == m && forall j :: 0 <= j < m ==> ps[j] == (i, j)
  {
    seq(m, j requires 0 <= j < m => (i, j))
  }

  lemma BlockAppend(i: nat, m: nat)
    ensures Block(i, m + 1) == Block(i, m) + [(i, m)]
  {
  }

  /** The rows of the first `n` surfaces, in the order they are opened. */
  function Plan(w: World, n: nat): seq<Pair> {
    if n == 0 then [] else Plan(w, n - 1) + if n - 1 in w.chosen then Block(n - 1, |w.checks|) else []
  }

  lemma {:induction false} PlanInWorld(w: World, n: nat)
    requires n <= |w.surfaces|
    ensures AllIn(w, Plan(w, n))
  {
    if n > 0 {
      PlanInWorld(w, n - 1);
    }
  }

  lemma PlanStep(w: World, n: nat)
    ensures n in w.chosen ==> Plan(w, n + 1) == Plan(w, n) + Block(n, |w.checks|)
    ensures n !in w.chosen ==> Plan(w, n + 1) == Plan(w, n)
  {
    assert Plan(w, n) + [] == Plan(w, n);
  }

  lemma {:induction false} PlanPrefix(w: World, n: nat, m: nat)
    requires n <= m
    ensures Plan(w, n) <= Plan(w, m)
    decreases m
  {
    if n < m {
      PlanPrefix(w, n, m - 1);
    }
  }

  lemma PlanCounts(w: World, n: nat, p: Pair)
    ensures Times(Plan(w, n + 1), p)
            == Times(Plan(w, n), p) + if n in w.chosen && p.0 == n && p.1 < |w.checks| then 1 else 0
  {
    PlanStep(w, n);
    BlockOnce(n, |w.checks|, p);
    hide Plan, Block, Times;
    if n in w.chosen {
      CountsAdd(Plan(w, n), Block(n, |w.checks|), p);
    }
  }

  lemma {:induction false} PlanOnce(w: World, n: nat, p: Pair)
    ensures Times(Plan(w, n), p) == if p.0 < n && p.0 in w.chosen && p.1 < |w.checks| then 1 else 0
  {
    if n == 0 {
      NotInEmpty(p);
      assert Plan(w, n) == [];
    } else {
      hide Plan, Times;
      PlanOnce(w, n - 1, p);
      PlanCounts(w, n - 1, p);
    }
  }

  /** The pass gets through the first `n` surfaces exactly when the heartbeat of each
      in time goes through, and it is left at no pair of theirs. */
  lemma SmoothExactlyWhen(w: World, n: nat)
    requires n <= |w.surfaces|
    ensures AllIn(w, Plan(w, n))
    ensures Smooth(w, n) <==>
      && (forall i: nat :: i < n && i in w.chosen && i !in w.late ==> i !in w.heartbeatFails)
      && (forall p <- Plan(w, n) :: !Stops(w, p))
  {
    PlanInWorld(w, n);
    forall p: Pair ensures p in Plan(w, n) <==> p.0 < n && p.0 in w.chosen && p.1 < |w.checks| {
      PlanOnce(w, n, p);
      assert p in Plan(w, n) <==> p in multiset(Plan(w, n));
    }
    hide Plan, Stops;
    if Smooth(w, n) {
      forall p | p in Plan(w, n) ensures !Stops(w, p) {
        assert Passable(w, p.0) && p == (p.0, p.1);
      }
    }
    if forall p <- Plan(w, n) :: !Stops(w, p) {
      forall i: nat, j: nat | i < n && i in w.chosen && j < |w.checks| ensures !Stops(w, (i, j)) {
        assert (i, j) in Plan(w, n);
      }
    }
  }

  /** How often a pair is in a list. */
  function Times(ps: seq<Pair>, p: Pair): nat {
    multiset(ps)[p]
  }

  lemma CountsAdd(a: seq<Pair>, b: seq<Pair>, p: Pair)
    ensures Times(a + b, p) == Times(a, p) + Times(b, p)
  {
  }

  lemma NotInEmpty(p: Pair)
    ensures Times([], p) == 0
  {
  }

  lemma {:induction false} BlockOnce(i: nat, m: nat, p: Pair)
    ensures Times(Block(i, m), p) == if p.0 == i && p.1 < m then 1 else 0
  {
    if m > 0 {
      BlockOnce(i, m - 1, p);
      assert Block(i, m) == Block(i, m - 1) + [(i, m - 1)];
    }
  }

  // ---- the tallies of the summary ----

  function Reasons(rows: seq<CheckRow>): multiset<string> {
    if rows == [] then multiset{}
    else
      var r := rows[|rows| - 1];
      var rest := Reasons(rows[..|rows| - 1]);
      if r.verdict.Skipped? then rest + multiset{r.verdict.reason} else rest
  }

  function SkippedRows(rows: seq<CheckRow>): nat {
    if rows == [] then 0
    else SkippedRows(rows[..|rows| - 1]) + if rows[|rows| - 1].verdict.Skipped? then 1 else 0
  }

  function Requests(rows: seq<CheckRow>): nat {
    if rows == [] then 0 else Requests(rows[..|rows| - 1]) + rows[|rows| - 1].requests
  }

  /** The requests of the rows that had a sender, in order. */
  function Sent(rows: seq<CheckRow>): seq<nat> {
    if rows == [] then []
    else
      var r := rows[|rows| - 1];
      if r.sender then Sent(rows[..|rows| - 1]) + [r.requests] else Sent(rows[..|rows| - 1])
  }

  /** The same numbers as the identity window was told them. */
  function Counted(t: seq<Event>): seq<nat> {
    if t == [] then []
    else match t[|t| - 1]
      case Canary(_) => Counted(t[..|t| - 1])
      case Row(n) => Counted(t[..|t| - 1]) + [n]
  }

  lemma {:induction false} CountedCanaries(t: seq<Event>, u: seq<Event>)
    requires t <= u && forall i :: |t| <= i < |u| ==> u[i].Canary?
    ensures Counted(u) == Counted(t)
    decreases |u|
  {
    if |t| < |u| {
      CountedCanaries(t, u[..|u| - 1]);
    } else {
      assert t == u;
    }
  }

  lemma CloseAppended(rows: seq<CheckRow>, pending: CheckRow, verdict: RowVerdict, requests: nat, sender: bool)
    ensures Close(rows + [pending], verdict, requests, sender)
            == rows + [CheckRow(pending.at, verdict, requests, sender)]
  {
    assert (rows + [pending])[..|rows|] == rows;
  }

  lemma Appended(rows: seq<CheckRow>, r: CheckRow)
    ensures Reasons(rows + [r])
            == if r.verdict.Skipped? then Reasons(rows) + multiset{r.verdict.reason} else Reasons(rows)
    ensures Requests(rows + [r]) == Requests(rows) + r.requests
    ensures Sent(rows + [r]) == if r.sender then Sent(rows) + [r.requests] else Sent(rows)
  {
    assert (rows + [r])[..|rows|] == rows;
  }

  /** The row a pair is left with: its verdict is its fate's, and it has requests
      only if it had a sender. */
  predicate RowOf(w: World, p: Pair, r: CheckRow)
    requires InWorld(w, p)
  {
    && r.at == p && r.verdict == VerdictOf(FateOf(w, p)) && r.verdict != Pending
    && (r.sender <==> HasSender(w, p)) && (r.requests > 0 ==> r.sender)
  }

  /** One row for each pair, in order. */
  predicate Filled(w: World, done: seq<Pair>, rows: seq<CheckRow>) {
    && AllIn(w, done) && |rows| == |done|
    && forall k :: 0 <= k < |done| ==> RowOf(w, done[k], rows[k])
  }

  lemma FilledAppend(w: World, done: seq<Pair>, rows: seq<CheckRow>, p: Pair, r: CheckRow)
    requires Filled(w, done, rows) && InWorld(w, p) && RowOf(w, p, r)
    ensures Filled(w, done + [p], rows + [r])
  {
  }

  lemma CountedAppend(t: seq<Event>, n: nat)
    ensures Counted(t + [Event.Row(n)]) == Counted(t) + [n]
  {
    assert (t + [Event.Row(n)])[..|t|] == t;
  }

  lemma LedgersAppend(w: World, was: Findings, done: seq<Pair>, p: Pair)
    requires AllIn(w, done) && InWorld(w, p)
    ensures AllIn(w, done + [p])
    ensures Table(w, was, done + [p])
            == FileAll(Table(w, was, done), w.surfaces[p.0], w.checks[p.1], StoredBy(FateOf(w, p)))
    ensures Seen(w, done + [p]) == Seen(w, done) + KeysOf(w.surfaces[p.0], w.checks[p.1], StoredBy(FateOf(w, p)))
    ensures Offers(w, done + [p]) == Offers(w, done) + OfferOf(w, p)
  {
    assert (done + [p])[..|done|] == done;
  }

  lemma NothingYet(w: World, was: Findings)
    ensures Filled(w, [], []) && Reasons([]) == multiset{}
    ensures Table(w, was, []) == was && Seen(w, []) == {} && Offers(w, []) == []
  {
  }

  /** A row the run had no time for offers nothing and files nothing. */
  lemma LateRow(w: World, was: Findings, done: seq<Pair>, rows: seq<CheckRow>, p: Pair)
    requires Filled(w, done, rows) && InWorld(w, p) && p.0 in w.late
    ensures Filled(w, done + [p], rows + [CheckRow(p, Skipped("budget"), 0, false)])
    ensures Table(w, was, done + [p]) == Table(w, was, done)
    ensures Seen(w, done + [p]) == Seen(w, done) && Offers(w, done + [p]) == Offers(w, done)
  {
    FilledAppend(w, done, rows, p, CheckRow(p, Skipped("budget"), 0, false));
    LedgersAppend(w, was, done, p);
  }

  /** The run issues under an identity: there is one, and something to send it on,
      through and to. */
  predicate Carries(w: World, named: bool) {
    && w.hasBridge && (exists c <- w.checks :: c.hook == Probes)
    && (exists i <- w.chosen :: i < |w.surfaces|) && named
  }

  /** `i` is the first surface the filter lets through. */
  predicate FirstChosen(w: World, i: nat) {
    i < |w.surfaces| && i in w.chosen && forall k :: 0 <= k < i ==> k !in w.chosen
  }

  /** There is a first one exactly when there is one, and only one first. */
  lemma {:induction false} FirstThereIs(w: World, n: nat)
    requires n <= |w.surfaces|
    ensures (exists i: nat :: i < n && FirstChosen(w, i)) <==> exists i <- w.chosen :: i < n
    ensures forall i: nat, j: nat :: FirstChosen(w, i) && FirstChosen(w, j) ==> i == j
  {
    if n > 0 {
      FirstThereIs(w, n - 1);
      if n - 1 in w.chosen && !exists i <- w.chosen :: i < n - 1 {
        assert FirstChosen(w, n - 1);
      }
    }
  }

  /** The run has a bracket exactly when it is under an identity, has a bridge and a
      check that probes, and there is a first surface to aim at. */
  lemma CarriesExactlyWhen(w: World, named: bool)
    ensures Carries(w, named) <==>
      && named && w.hasBridge && (exists j :: 0 <= j < |w.checks| && w.checks[j].hook == Probes)
      && exists i: nat :: FirstChosen(w, i)
  {
    FirstThereIs(w, |w.surfaces|);
    if Carries(w, named) {
      var c :| c in w.checks && c.hook == Probes;
      var j :| 0 <= j < |w.checks| && w.checks[j] == c;
    }
    if j :| 0 <= j < |w.checks| && w.checks[j].hook == Probes {
      assert w.checks[j] in w.checks;
    }
  }

  function Visited(w: World, n: nat): nat {
    if n == 0 then 0 else Visited(w, n - 1) + if n - 1 in w.chosen && n - 1 !in w.late then 1 else 0
  }

  /** As many surfaces as the filter lets through in time. */
  lemma {:induction false} VisitedCounts(w: World, n: nat)
    ensures Visited(w, n) == |set i: nat | i < n && i in w.chosen && i !in w.late|
  {
    var all := set i: nat | i < n && i in w.chosen && i !in w.late;
    if n == 0 {
      assert all == {};
    } else {
      VisitedCounts(w, n - 1);
      var before := set i: nat | i < n - 1 && i in w.chosen && i !in w.late;
      assert all == before + if n - 1 in w.chosen && n - 1 !in w.late then {n - 1} else {};
    }
  }

  // ---- findings ----

  function PlaceOf(s: Surface, point: Option<Insertion>): Place {
    Place(s.scheme, s.host, s.port, s.verb, s.template,
          if point.None? then "" else point.value.kind, if point.None? then "" else point.value.name)
  }

  function KeyOf(s: Surface, c: Check, cand: Candidate): DedupeKey {
    Key(c.id, cand.issue, cand.scope, PlaceOf(s, cand.point))
  }

  /** The columns of a `finding` row that retirement reads. */
  datatype Filed = Filed(surface: string, check: string, issue: string)

  type Findings = map<DedupeKey, Filed>

  /** `upsert_finding`: on a conflict the surface and the check move and the issue
      type does not. */
  function Upsert(t: Findings, s: Surface, c: Check, cand: Candidate): Findings {
    var k := KeyOf(s, c, cand);
    t[k := Filed(s.id, c.id, if k in t then t[k].issue else cand.issue)]
  }

  /** One candidate filed: its row says where it was last seen and by which check, and
      the issue it was first filed as; every other row stands. */
  lemma UpsertMeans(t: Findings, s: Surface, c: Check, cand: Candidate, k: DedupeKey)
    ensures var now, here := Upsert(t, s, c, cand), KeyOf(s, c, cand);
      && (k in now <==> k in t || k == here)
      && (k in t && k != here ==> now[k] == t[k])
      && (k == here ==> now[k].surface == s.id && now[k].check == c.id)
      && (k == here && k in t ==> now[k].issue == t[k].issue)
      && (k == here && k !in t ==> now[k].issue == cand.issue)
  {
    hide KeyOf;
  }

  function FileAll(t: Findings, s: Surface, c: Check, cands: seq<Candidate>): Findings {
    if cands == [] then t
    else Upsert(FileAll(t, s, c, cands[..|cands| - 1]), s, c, cands[|cands| - 1])
  }

  function KeysOf(s: Surface, c: Check, cands: seq<Candidate>): set<DedupeKey> {
    if cands == [] then {}
    else KeysOf(s, c, cands[..|cands| - 1]) + {KeyOf(s, c, cands[|cands| - 1])}
  }

  /** The candidates of an answer that reach the store. */
  function Stored(v: Verdict, failAt: nat): seq<Candidate> {
    if v.said != SaidFinding then []
    else if failAt < |v.candidates| then v.candidates[..failAt] else v.candidates
  }

  function StoredBy(f: Fate): seq<Candidate> {
    if f.Answers? then Stored(f.verdict, f.writesFailAt) else []
  }

  /** What a check reports is stored candidate by candidate, up to the first whose write
      fails; a check that is skipped, or comes back any other way, stores nothing. */
  lemma StoredByCause(w: World, p: Pair)
    requires InWorld(w, p)
    ensures var c, e := w.checks[p.1], w.behave(p).ending;
      var called := p.0 !in w.late && c.hook != NoHook
                    && (c.hook == Probes ==> SkipReason(w.hasBridge, w.surfaces[p.0], c).None?);
      var reports := called && e.Returns? && e.verdict.said == SaidFinding;
      && (reports && |e.verdict.candidates| <= e.writesFailAt ==> StoredBy(FateOf(w, p)) == e.verdict.candidates)
      && (reports && |e.verdict.candidates| > e.writesFailAt ==>
            |StoredBy(FateOf(w, p))| == e.writesFailAt && StoredBy(FateOf(w, p)) <= e.verdict.candidates)
      && (!reports ==> StoredBy(FateOf(w, p)) == [])
  {
    hide SkipReason;
  }

  function Table(w: World, t: Findings, done: seq<Pair>): Findings
    requires AllIn(w, done)
  {
    if done == [] then t
    else
      var p := done[|done| - 1];
      FileAll(Table(w, t, done[..|done| - 1]), w.surfaces[p.0], w.checks[p.1], StoredBy(FateOf(w, p)))
  }

  function Seen(w: World, done: seq<Pair>): set<DedupeKey>
    requires AllIn(w, done)
  {
    if done == [] then {}
    else
      var p := done[|done| - 1];
      Seen(w, done[..|done| - 1]) + KeysOf(w.surfaces[p.0], w.checks[p.1], StoredBy(FateOf(w, p)))
  }

  lemma {:induction false} FileAllOutside(t: Findings, s: Surface, c: Check, cands: seq<Candidate>, k: DedupeKey)
    ensures k in KeysOf(s, c, cands) ==> k in FileAll(t, s, c, cands)
    ensures k !in KeysOf(s, c, cands) ==>
              (k in FileAll(t, s, c, cands) <==> k in t) && (k in t ==> FileAll(t, s, c, cands)[k] == t[k])
  {
    if cands != [] {
      FileAllOutside(t, s, c, cands[..|cands| - 1], k);
    }
  }

  /** A finding the run did not see is as it was; one it saw is on file. */
  lemma {:induction false} TableOutside(w: World, t: Findings, done: seq<Pair>, k: DedupeKey)
    requires AllIn(w, done)
    ensures k in Seen(w, done) ==> k in Table(w, t, done)
    ensures k !in Seen(w, done) ==>
              (k in Table(w, t, done) <==> k in t) && (k in t ==> Table(w, t, done)[k] == t[k])
  {
    if done != [] {
      var rest := done[..|done| - 1];
      TableOutside(w, t, rest, k);
      var p := done[|done| - 1];
      FileAllOutside(Table(w, t, rest), w.surfaces[p.0], w.checks[p.1], StoredBy(FateOf(w, p)), k);
    }
  }

  /** Some candidate that `p` stored is a sighting under this key. */
  predicate SightedAt(w: World, p: Pair, k: DedupeKey)
    requires InWorld(w, p)
  {
    Sighted(w.surfaces[p.0], w.checks[p.1], StoredBy(FateOf(w, p)), k)
  }

  predicate Sighted(s: Surface, c: Check, cands: seq<Candidate>, k: DedupeKey) {
    exists n :: 0 <= n < |cands| && KeyOf(s, c, cands[n]) == k
  }

  lemma {:induction false} KeysSighted(s: Surface, c: Check, cands: seq<Candidate>, k: DedupeKey)
    ensures k in KeysOf(s, c, cands) <==> Sighted(s, c, cands, k)
  {
    hide KeyOf;
    if cands != [] {
      var last := |cands| - 1;
      KeysSighted(s, c, cands[..last], k);
      if n :| 0 <= n < |cands| && KeyOf(s, c, cands[n]) == k {
        if n < last {
          assert cands[..last][n] == cands[n];
        }
      }
      if n :| 0 <= n < last && KeyOf(s, c, cands[..last][n]) == k {
        assert cands[n] == cands[..last][n];
      }
    }
  }

  lemma SeenLast(w: World, done: seq<Pair>, k: DedupeKey)
    requires AllIn(w, done) && done != []
    ensures var n := |done| - 1;
      k in Seen(w, done) <==> k in Seen(w, done[..n]) || SightedAt(w, done[n], k)
  {
    hide FateOf, StoredBy, KeysOf, Sighted;
    var last := done[|done| - 1];
    KeysSighted(w.surfaces[last.0], w.checks[last.1], StoredBy(FateOf(w, last)), k);
  }

  /** What the run saw is what its pairs stored. */
  lemma {:induction false} SeenSighted(w: World, done: seq<Pair>, k: DedupeKey)
    requires AllIn(w, done)
    ensures k in Seen(w, done) <==> exists i :: 0 <= i < |done| && SightedAt(w, done[i], k)
  {
    hide SightedAt, FateOf, StoredBy, KeysOf;
    if done != [] {
      var n := |done| - 1;
      SeenLast(w, done, k);
      SeenSighted(w, done[..n], k);
      if i :| 0 <= i < |done| && SightedAt(w, done[i], k) {
        if i < n {
          assert SightedAt(w, done[..n][i], k);
        }
      }
      if i :| 0 <= i < n && SightedAt(w, done[..n][i], k) {
        assert SightedAt(w, done[i], k);
      }
    }
  }

  function StoredKey(w: World, p: Pair, n: nat): DedupeKey
    requires InWorld(w, p) && n < |StoredBy(FateOf(w, p))|
  {
    KeyOf(w.surfaces[p.0], w.checks[p.1], StoredBy(FateOf(w, p))[n])
  }

  /** One insertion point, or none twice; one with neither kind nor name is none. */
  predicate SamePoint(a: Option<Insertion>, b: Option<Insertion>) {
    || (a.Some? && b.Some? && Alike(a.value.kind, b.value.kind) && Alike(a.value.name, b.value.name))
    || (Unnamed(a) && Unnamed(b))
  }

  predicate Unnamed(a: Option<Insertion>) {
    a.None? || (Dash(a.value.kind) && Dash(a.value.name))
  }

  /** Two candidates that were stored are one finding: of one check and issue, at one
      point, and, as far as their scope narrows it, on one origin, method and
      template. */
  predicate SameFinding(w: World, p: Pair, i: nat, q: Pair, j: nat)
    requires InWorld(w, p) && i < |StoredBy(FateOf(w, p))| && InWorld(w, q) && j < |StoredBy(FateOf(w, q))|
  {
    var a, b := StoredBy(FateOf(w, p))[i], StoredBy(FateOf(w, q))[j];
    var s, t := w.surfaces[p.0], w.surfaces[q.0];
    && Alike(w.checks[p.1].id, w.checks[q.1].id) && Alike(a.issue, b.issue) && SamePoint(a.point, b.point)
    && (a.scope != Engagement ==> Alike(s.scheme, t.scheme) && Alike(s.host, t.host) && s.port == t.port)
    && (a.scope == OneSurface || a.scope == OnePoint ==> Alike(s.verb, t.verb) && Alike(s.template, t.template))
  }

  lemma SightingsAgree(w: World, p: Pair, i: nat, q: Pair, j: nat)
    requires InWorld(w, p) && i < |StoredBy(FateOf(w, p))| && InWorld(w, q) && j < |StoredBy(FateOf(w, q))|
    requires StoredBy(FateOf(w, p))[i].scope == StoredBy(FateOf(w, q))[j].scope
    ensures StoredKey(w, p, i) == StoredKey(w, q, j) <==> SameFinding(w, p, i, q, j)
  {
    hide FateOf, StoredBy, Key;
    var a, b := StoredBy(FateOf(w, p))[i], StoredBy(FateOf(w, q))[j];
    KeysAgree(w.checks[p.1].id, a.issue, PlaceOf(w.surfaces[p.0], a.point),
              w.checks[q.1].id, b.issue, PlaceOf(w.surfaces[q.0], b.point), a.scope);
  }

  /** Everything stored is the one finding under this key. */
  ghost predicate AllOneFinding(w: World, done: seq<Pair>, k: DedupeKey)
    requires AllIn(w, done)
  {
    forall i, other {:trigger SightedAt(w, done[i], other)} ::
      0 <= i < |done| && SightedAt(w, done[i], other) ==> other == k
  }

  lemma SeenApart(w: World, done: seq<Pair>, p: Pair, i: nat, q: Pair, j: nat)
    requires AllIn(w, done) && p in done && q in done
    requires InWorld(w, p) && i < |StoredBy(FateOf(w, p))| && InWorld(w, q) && j < |StoredBy(FateOf(w, q))|
    ensures StoredKey(w, p, i) in Seen(w, done) && StoredKey(w, q, j) in Seen(w, done)
    ensures StoredKey(w, p, i) != StoredKey(w, q, j) ==> |Seen(w, done)| >= 2
    ensures AllOneFinding(w, done, StoredKey(w, p, i)) ==> |Seen(w, done)| == 1
  {
    hide KeyOf, FateOf, StoredBy, Seen;
    var a, b := StoredKey(w, p, i), StoredKey(w, q, j);
    var x :| 0 <= x < |done| && done[x] == p;
    var y :| 0 <= y < |done| && done[y] == q;
    assert SightedAt(w, done[x], a) && SightedAt(w, done[y], b);
    SeenSighted(w, done, a);
    SeenSighted(w, done, b);
    var seen := Seen(w, done);
    assert {a, b} <= seen && seen == {a, b} + (seen - {a, b});
    if AllOneFinding(w, done, a) {
      forall k | k in seen ensures k == a {
        SeenSighted(w, done, k);
        var i :| 0 <= i < |done| && SightedAt(w, done[i], k);
      }
      assert seen == {a};
    }
  }

  /** Every row is filed under the check and the issue type its key spells. */
  predicate Keyed(t: Findings) {
    forall k <- t :: Written(t[k].check) == k.check && Written(t[k].issue) == k.issue
  }

  lemma {:induction false} FileAllKeyed(t: Findings, s: Surface, c: Check, cands: seq<Candidate>)
    requires Keyed(t)
    ensures Keyed(FileAll(t, s, c, cands))
  {
    if cands != [] {
      FileAllKeyed(t, s, c, cands[..|cands| - 1]);
    }
  }

  lemma {:induction false} TableKeyed(w: World, t: Findings, done: seq<Pair>)
    requires Keyed(t) && AllIn(w, done)
    ensures Keyed(Table(w, t, done))
  {
    if done != [] {
      TableKeyed(w, t, done[..|done| - 1]);
      var p := done[|done| - 1];
      FileAllKeyed(Table(w, t, done[..|done| - 1]), w.surfaces[p.0], w.checks[p.1], StoredBy(FateOf(w, p)));
    }
  }

  // ---- retirement ----

  datatype Offer = Offer(at: Pair, hook: Hook, surface: string, check: string, origin: Origin, considered: seq<string>)

  function OfferOf(w: World, p: Pair): seq<Offer>
    requires InWorld(w, p)
  {
    var f := FateOf(w, p);
    var s, c := w.surfaces[p.0], w.checks[p.1];
    if f.Answers? && f.verdict.considered != [] then
      [Offer(p, c.hook, s.id, c.id, OriginOf(s), f.verdict.considered)]
    else []
  }

  function Offers(w: World, done: seq<Pair>): seq<Offer>
    requires AllIn(w, done)
  {
    if done == [] then [] else Offers(w, done[..|done| - 1]) + OfferOf(w, done[|done| - 1])
  }

  /** What a run may do with an offer: a passive check's always stands, an active
      check's only when the session was proved at the row's own origin. */
  predicate Retirable(o: Offer, state: Option<State>, proved: Option<Origin>) {
    o.hook != Probes || (state == Some(Proven) && proved == Some(o.origin))
  }

  /** Some verdict of this run named an issue type it may retire. */
  predicate AnyRetirable(offers: seq<Offer>, state: Option<State>, proved: Option<Origin>) {
    exists o <- offers :: Retirable(o, state, proved) && o.considered != []
  }

  /** Some verdict of this run examined `f` for its own issue type, and may
      retire it. */
  predicate Examined(offers: seq<Offer>, state: Option<State>, proved: Option<Origin>, f: Filed) {
    exists o <- offers :: Retirable(o, state, proved) && o.surface == f.surface && o.check == f.check
                          && f.issue in o.considered
  }

  /** The set `_mark_unobserved` is handed. */
  function Considered(offers: seq<Offer>, state: Option<State>, proved: Option<Origin>): set<(string, string, string)> {
    set o, t | o in offers && Retirable(o, state, proved) && t in o.considered :: (o.surface, o.check, t)
  }

  lemma ConsideredMeans(offers: seq<Offer>, state: Option<State>, proved: Option<Origin>)
    ensures forall f: Filed ::
      (f.surface, f.check, f.issue) in Considered(offers, state, proved) <==> Examined(offers, state, proved, f)
    ensures Considered(offers, state, proved) != {} <==> AnyRetirable(offers, state, proved)
  {
    if o :| o in offers && Retirable(o, state, proved) && o.considered != [] {
      assert (o.surface, o.check, o.considered[0]) in Considered(offers, state, proved);
    }
  }

  lemma {:induction false} OffersFrom(w: World, done: seq<Pair>, o: Offer)
    requires AllIn(w, done)
    ensures o in Offers(w, done) <==> exists p <- done :: o in OfferOf(w, p)
  {
    if done != [] {
      var rest, last := done[..|done| - 1], done[|done| - 1];
      OffersFrom(w, rest, o);
      assert done == rest + [last];
    }
  }

  /** The rows of a surface that share its id and check with a filed finding, were
      answered, and named its issue type. */
  predicate ExaminedAt(w: World, p: Pair, state: Option<State>, proved: Option<Origin>, f: Filed)
    requires InWorld(w, p)
  {
    var s, c, fate := w.surfaces[p.0], w.checks[p.1], FateOf(w, p);
    && fate.Answers? && f.issue in fate.verdict.considered
    && s.id == f.surface && c.id == f.check
    && (c.hook == Probes ==> state == Some(Proven) && proved == Some(OriginOf(s)))
  }

  lemma ExaminedMeans(w: World, done: seq<Pair>, state: Option<State>, proved: Option<Origin>, f: Filed)
    requires AllIn(w, done)
    ensures Examined(Offers(w, done), state, proved, f) <==> exists p <- done :: ExaminedAt(w, p, state, proved, f)
  {
    if Examined(Offers(w, done), state, proved, f) {
      var o :| o in Offers(w, done) && Retirable(o, state, proved) && o.surface == f.surface
               && o.check == f.check && f.issue in o.considered;
      OffersFrom(w, done, o);
      var p :| p in done && o in OfferOf(w, p);
      assert ExaminedAt(w, p, state, proved, f);
    }
    if exists p <- done :: ExaminedAt(w, p, state, proved, f) {
      var p :| p in done && ExaminedAt(w, p, state, proved, f);
      var o := OfferOf(w, p)[0];
      assert o in OfferOf(w, p);
      OffersFrom(w, done, o);
    }
  }

  /** The check came back with a finding, and the store failed under one of its
      candidates. */
  predicate FindingLost(w: World, p: Pair, issue: string)
    requires InWorld(w, p)
  {
    && SkipsNothing(w, p) && w.behave(p).ending.Returns?
    && var v, n := w.behave(p).ending.verdict, w.behave(p).ending.writesFailAt;
       v.said == SaidFinding && n < |v.candidates| && issue in v.considered
  }

  /** The check is called at all. */
  predicate SkipsNothing(w: World, p: Pair)
    requires InWorld(w, p)
  {
    && p.0 !in w.late && w.checks[p.1].hook != NoHook
    && (w.checks[p.1].hook == Probes ==> SkipReason(w.hasBridge, w.surfaces[p.0], w.checks[p.1]).None?)
  }

  /** "A row closed `error` retires nothing", row by row: of all the rows closed so,
      the crashes, the junk, the missing hooks and the skips that could not be
      written examine nothing, and a finding verdict whose write failed examines
      what it considered, as one that was written does. */
  lemma ErrorRowExamines(w: World, p: Pair, state: Option<State>, proved: Option<Origin>, f: Filed)
    requires InWorld(w, p) && VerdictOf(FateOf(w, p)) == Error
    ensures ExaminedAt(w, p, state, proved, f) <==>
      && FindingLost(w, p, f.issue)
      && w.surfaces[p.0].id == f.surface && w.checks[p.1].id == f.check
      && (w.checks[p.1].hook == Probes ==> state == Some(Proven) && proved == Some(OriginOf(w.surfaces[p.0])))
  {
  }

  lemma {:induction false} RowTallies(rows: seq<CheckRow>)
    ensures |Reasons(rows)| == SkippedRows(rows)
  {
    if rows != [] {
      RowTallies(rows[..|rows| - 1]);
    }
  }

  /** Every pair of the filter has one row, no other pair has any, and no row is
      left pending. */
  lemma Covered(w: World, rows: seq<CheckRow>, p: Pair)
    requires Filled(w, Plan(w, |w.surfaces|), rows)
    ensures InWorld(w, p) && p.0 in w.chosen <==> exists r <- rows :: r.at == p
    ensures forall a, b :: 0 <= a < b < |rows| ==> rows[a].at != p || rows[b].at != p
    ensures forall r <- rows :: r.verdict != Pending
  {
    var plan := Plan(w, |w.surfaces|);
    PlanOnce(w, |w.surfaces|, p);
    assert p in plan <==> p in multiset(plan);
    forall a, b | 0 <= a < b < |rows| ensures rows[a].at != p || rows[b].at != p {
      if plan[a] == p && plan[b] == p {
        TwiceIn(plan, a, b);
      }
    }
  }

  lemma TwiceIn(s: seq<Pair>, a: nat, b: nat)
    requires a < b < |s| && s[a] == s[b]
    ensures Times(s, s[a]) >= 2
  {
    assert s == s[..b] + [s[b]] + s[b + 1..];
    assert s[..b][a] == s[a];
    assert multiset(s) == multiset(s[..b]) + multiset{s[b]} + multiset(s[b + 1..]);
  }

  const LOST_CANDIDATE := Candidate("missing-hsts", OneSurface, None)
  const LOST_VERDICT := Verdict(SaidFinding, [LOST_CANDIDATE], ["missing-hsts"])
  const LOST_SURFACE := Surface("sf", "GET", "https", "h", 443, "/", None, {}, None, [])
  const LOST_CHECK := Check("headers", OnSurface, {})

  const LOST_OFFER := Offer((0, 0), OnSurface, "sf", "headers", ("https", "h", 443), ["missing-hsts"])

  /** One passive check on one surface, whose finding is not written. */
  predicate Loses(w: World) {
    && w.surfaces == [LOST_SURFACE] && w.checks == [LOST_CHECK] && w.chosen == {0} && w.late == {}
    && w.behave((0, 0)).ending == Returns(LOST_VERDICT, 0)
  }

  lemma LostRow(w: World)
    requires Loses(w)
    ensures InWorld(w, (0, 0)) && FateOf(w, (0, 0)) == Answers(LOST_VERDICT, 0)
    ensures StoredBy(FateOf(w, (0, 0))) == [] && OfferOf(w, (0, 0)) == [LOST_OFFER]
  {
    assert LOST_VERDICT.candidates[..0] == [];
  }

  lemma LostPlan(w: World)
    requires Loses(w)
    ensures Plan(w, 1) == [(0, 0)]
  {
    hide LOST_SURFACE, LOST_CHECK, LOST_VERDICT;
    PlanStep(w, 0);
    assert Plan(w, 0) == [];
    assert |w.checks| == 1;
  }

  lemma NothingStored(t: Findings, s: Surface, c: Check)
    ensures FileAll(t, s, c, []) == t && KeysOf(s, c, []) == {}
  {
  }

  lemma LostLedgers(w: World, t: Findings)
    requires Loses(w)
    ensures AllIn(w, [(0, 0)])
    ensures Table(w, t, [(0, 0)]) == t && Seen(w, [(0, 0)]) == {} && Offers(w, [(0, 0)]) == [LOST_OFFER]
  {
    LostRow(w);
    NothingStored(t, w.surfaces[0], w.checks[0]);
    NothingYet(w, t);
    hide Loses, FateOf, StoredBy, OfferOf, FileAll, KeysOf;
    LedgersAppend(w, t, [], (0, 0));
    assert [] + [(0, 0)] == [(0, 0)];
    assert [] + [LOST_OFFER] == [LOST_OFFER];
  }

  /** A finding can be retired by the very row that found it again: its candidate's
      write fails, the row is closed `error`, and the offer, made before the
      write, stands. */
  lemma ErrorRowRetires(w: World, t: Findings, k: DedupeKey)
    requires Loses(w) && k == KeyOf(LOST_SURFACE, LOST_CHECK, LOST_CANDIDATE)
    requires k in t && t[k] == Filed("sf", "headers", "missing-hsts")
    ensures Plan(w, 1) == [(0, 0)] && VerdictOf(FateOf(w, (0, 0))) == Error
    ensures FateOf(w, (0, 0)) == Answers(LOST_VERDICT, 0) && LOST_VERDICT.candidates == [LOST_CANDIDATE]
    ensures k in Table(w, t, [(0, 0)]) && k !in Seen(w, [(0, 0)])
    ensures Examined(Offers(w, [(0, 0)]), None, None, Table(w, t, [(0, 0)])[k])
  {
    LostPlan(w);
    LostRow(w);
    LostLedgers(w, t);
    hide Loses, FateOf, Plan, Table, Seen, Offers, KeyOf;
    assert LOST_OFFER in [LOST_OFFER] && LOST_OFFER.considered[0] == "missing-hsts";
  }

  /** Nothing stops a pass over that world. */
  lemma LostRunsOn(w: World)
    requires Loses(w) && w.storeFails == {} && w.heartbeatFails == {}
    ensures Smooth(w, |w.surfaces|)
  {
    LostRow(w);
  }
}
