/** `hx.scan.run`: one pass over every surface and check, and the retirement that
    waits for the closing canary. */
module Scan {
  import opened Options
  import opened Probe
  import opened IdentityTrace
  import opened Identity
  import opened DedupeKeys
  import opened ScanPlan
  import opened Session

  /** How the run's own row is closed; a scan with no checks opens none. */
  datatype Status = NoRow | Completed | Errored

  /** A check's handling closed its row, has a verdict to close it with, or was
      left by something nothing in the loop catches. */
  datatype Handled = RowClosed | CloseWith(verdict: RowVerdict) | Left

  /** The identity a run is given: its declaration, and whether the bridge takes
      its registration. */
  datatype Named = Named(id: Ident, registers: bool)

  class ScanRun {
    const w: World
    const wire: Wire
    var bracket: IdentityBracket?
    var rows: seq<CheckRow>
    var checksRun: nat
    var surfaces: nat
    var skipped: nat
    var byReason: multiset<string>
    var refused: multiset<string>
    var findings: nat
    var filed: Findings
    var seen: set<DedupeKey>
    var observed: map<DedupeKey, bool>
    var offered: seq<Offer>
    var identityState: Option<State>

    constructor (w: World, wire: Wire, filed: Findings)
      ensures this.w == w && this.wire == wire && this.filed == filed && Unstarted()
    {
      this.w, this.wire, this.filed := w, wire, filed;
      bracket, rows, checksRun, surfaces, skipped, findings := null, [], 0, 0, 0, 0;
      byReason, refused, seen, observed, offered := multiset{}, multiset{}, {}, map[], [];
      identityState := None;
    }

    ghost function Summary(): (nat, nat, nat, multiset<string>, nat)
      reads this
    {
      (checksRun, surfaces, skipped, byReason, findings)
    }

    function Window(): set<object>
      reads `bracket
    {
      if bracket == null then {} else {bracket.window}
    }

    /** The rows and the tallies kept of them. */
    ghost predicate RowsFilled(done: seq<Pair>)
      reads `rows, `checksRun, `byReason
    {
      Filled(w, done, rows) && checksRun == |rows| && byReason == Reasons(rows)
    }

    ghost predicate RowsKept(done: seq<Pair>)
      reads `rows, `checksRun, `byReason, `skipped
    {
      RowsFilled(done) && skipped == |byReason|
    }

    /** The findings and what was said about them. */
    ghost predicate FindingsKept(done: seq<Pair>, was: Findings)
      reads `filed, `findings, `seen, `observed, `offered
    {
      && AllIn(w, done) && filed == Table(w, was, done) && seen == Seen(w, done) && offered == Offers(w, done)
      && Tallied() && AllTrue()
    }

    ghost predicate Tallied()
      reads `findings, `seen, `observed
    {
      && findings == |seen| && observed.Keys == seen
    }

    ghost predicate AllTrue()
      reads `observed
    {
      forall k <- observed :: observed[k]
    }

    /** What the session has come to. */
    ghost function Lived(): (s: Session)
      requires bracket != null
      reads `bracket, bracket, wire, Window()
      ensures s.pos == wire.sends
    {
      Session(wire.sends, Since(bracket.trace), bracket.generation, !bracket.window.anyFailure)
    }

    /** It has come to what these pairs bring it to from `s`. */
    ghost predicate Followed(s: Session, done: seq<Pair>)
      reads `bracket, bracket, wire, Window()
    {
      bracket != null ==> AllIn(w, done) && PairsFrom(bracket.Id(), w, wire.answer, s, done) == Some(Lived())
    }

    /** These pairs bring it from `s` to a canary that finds it dead. */
    ghost predicate Dies(s: Session, done: seq<Pair>)
      reads `bracket
    {
      bracket != null && AllIn(w, done) && PairsFrom(bracket.Id(), w, wire.answer, s, done).None?
    }

    /** These pairs were lived through, and the canary behind them finds it dead. */
    ghost predicate DeadNow(s: Session, done: seq<Pair>)
      reads `bracket
    {
      bracket != null && AllIn(w, done) && DeadBehind(bracket.Id(), w, wire.answer, s, done)
    }

    /** What the run owes the wire and the identity window. */
    ghost predicate Accounted(start: nat)
      reads `rows, `bracket, wire, bracket, Window()
    {
      && start <= wire.sends
      && Requests(rows) + (if bracket == null then 0 else bracket.canaryRequests)
         == IssuedCount(wire.answer, start, wire.sends)
      && (bracket != null ==> bracket.wire == wire && bracket.Running() && Counted(bracket.trace) == Sent(rows))
    }

    method OpenRow(p: Pair) returns (ok: bool)
      requires InWorld(w, p)
      modifies this`rows, this`checksRun
      ensures ok ==> rows == old(rows) + [CheckRow(p, Pending, 0, false)] && checksRun == old(checksRun) + 1
      ensures ok <==> (p, Opening) !in w.storeFails
    {
      if (p, Opening) in w.storeFails {
        return false;
      }
      rows := rows + [CheckRow(p, Pending, 0, false)];
      checksRun := checksRun + 1;
      ok := true;
    }

    method CloseRow(verdict: RowVerdict, requests: nat, sender: bool)
      requires |rows| > 0
      modifies this`rows
      ensures rows == Close(old(rows), verdict, requests, sender)
    {
      rows := Close(rows, verdict, requests, sender);
    }

    /** `_skip`: the row, then the two tallies. */
    method Skip(reason: string, ghost before: seq<CheckRow>, ghost p: Pair)
      requires rows == before + [CheckRow(p, Pending, 0, false)]
      modifies this`rows, this`skipped, this`byReason
      ensures rows == before + [CheckRow(p, Skipped(reason), 0, false)]
      ensures Requests(rows) == Requests(before) && Sent(rows) == Sent(before)
      ensures skipped == old(skipped) + 1 && byReason == old(byReason) + multiset{reason}
    {
      CloseRow(Skipped(reason), 0, false);
      skipped := skipped + 1;
      byReason := byReason + multiset{reason};
      CloseAppended(before, CheckRow(p, Pending, 0, false), Skipped(reason), 0, false);
      Appended(before, CheckRow(p, Skipped(reason), 0, false));
    }

    /** `_spent`: what the row's sender issued, told to the tally and the window. */
    method Spend(sender: ProbeSender?) returns (n: nat)
      requires bracket != null ==> bracket.Running() && (sender != null ==> !bracket.due)
      modifies this`refused, bracket, Window()
      ensures bracket == old(bracket)
      ensures n == if sender == null then 0 else sender.sent
      ensures sender != null ==> refused == old(refused) + sender.refused
      ensures bracket != null ==> bracket.Running() && bracket.canaryRequests == old(bracket.canaryRequests)
      ensures bracket != null ==> Lived() == old(Lived()).(since := old(Lived()).since + n)
      ensures bracket != null ==>
                if sender == null then bracket.trace == old(bracket.trace)
                else bracket.trace == old(bracket.trace) + [Event.Row(n)]
    {
      hide IdentityBracket.Running, Since;
      if sender == null {
        return 0;
      }
      refused := refused + sender.refused;
      if bracket != null {
        bracket.Note(sender.sent);
      }
      n := sender.sent;
    }

    /** The row a candidate lands on, its observation by this run, and the count
        of distinct findings. */
    method File(k: DedupeKey, row: Filed)
      requires Tallied() && AllTrue()
      modifies this`filed, this`seen, this`observed, this`findings
      ensures filed == old(filed)[k := row] && seen == old(seen) + {k}
      ensures Tallied() && AllTrue()
    {
      filed := filed[k := row];
      observed := observed[k := true];
      if k !in seen {
        findings := findings + 1;
      } else {
        assert seen + {k} == seen;
      }
      seen := seen + {k};
    }

    /** `_write_finding`. */
    method WriteFinding(s: Surface, c: Check, cand: Candidate)
      requires Tallied() && AllTrue()
      modifies this`filed, this`seen, this`observed, this`findings
      ensures filed == Upsert(old(filed), s, c, cand) && seen == old(seen) + {KeyOf(s, c, cand)}
      ensures Tallied() && AllTrue()
    {
      var k := KeyOf(s, c, cand);
      File(k, Filed(s.id, c.id, if k in filed then filed[k].issue else cand.issue));
    }

    /** The candidates of a finding verdict, up to the first write that fails. */
    method WriteFindings(p: Pair, cands: seq<Candidate>, failAt: nat) returns (ok: bool)
      requires InWorld(w, p) && Tallied() && AllTrue()
      modifies this`filed, this`seen, this`observed, this`findings
      ensures ok <==> |cands| <= failAt
      ensures var s, c := w.surfaces[p.0], w.checks[p.1];
        var done := if ok then cands else cands[..failAt];
        filed == FileAll(old(filed), s, c, done) && seen == old(seen) + KeysOf(s, c, done)
      ensures Tallied() && AllTrue()
    {
      hide KeyOf, Upsert, ScanRun.Tallied, ScanRun.AllTrue;
      var s, c := w.surfaces[p.0], w.checks[p.1];
      for n := 0 to |cands|
        invariant filed == FileAll(old(filed), s, c, cands[..n])
        invariant seen == old(seen) + KeysOf(s, c, cands[..n])
        invariant n <= failAt && Tallied() && AllTrue()
      {
        if n == failAt {
          return false;
        }
        WriteFinding(s, c, cands[n]);
        assert cands[..n + 1][..n] == cands[..n];
      }
      assert cands[..|cands|] == cands;
      ok := true;
    }

    /** An accepted verdict: its offer is kept before its findings are written. */
    method Accept(p: Pair, v: Verdict, failAt: nat) returns (verdict: RowVerdict)
      requires InWorld(w, p) && Tallied() && AllTrue() && FateOf(w, p) == Answers(v, failAt)
      modifies this`filed, this`seen, this`observed, this`findings, this`offered
      ensures verdict == VerdictOf(FateOf(w, p))
      ensures var s, c := w.surfaces[p.0], w.checks[p.1];
        && filed == FileAll(old(filed), s, c, StoredBy(FateOf(w, p)))
        && seen == old(seen) + KeysOf(s, c, StoredBy(FateOf(w, p)))
      ensures offered == old(offered) + OfferOf(w, p)
      ensures Tallied() && AllTrue()
    {
      var s, c := w.surfaces[p.0], w.checks[p.1];
      if v.considered != [] {
        offered := offered + [Offer(p, c.hook, s.id, c.id, OriginOf(s), v.considered)];
      }
      match v.said {
        case SaidClean => verdict := Clean;
        case SaidInconclusive => verdict := Inconclusive;
        case SaidFinding =>
          var ok := WriteFindings(p, v.candidates, failAt);
          verdict := if ok then Finding else Error;
      }
    }

    /** The body of the `try` around one check, with what its two handlers add. */
    method Handle(p: Pair, ghost before: seq<CheckRow>, ghost start: nat) returns (h: Handled, sender: ProbeSender?)
      requires InWorld(w, p) && p.0 !in w.late && Tallied() && AllTrue() && start <= wire.sends
      requires rows == before + [CheckRow(p, Pending, 0, false)]
      modifies this`rows, this`skipped, this`byReason, this`filed, this`seen, this`observed,
               this`findings, this`offered, wire
      ensures AllTrue() && wire.sends >= old(wire.sends)
      ensures sender == null || fresh(sender)
      ensures h.Left? <==> FateOf(w, p).Escapes?
      ensures h.RowClosed? <==> FateOf(w, p).Skips?
      ensures h.CloseWith? ==> h.verdict == VerdictOf(FateOf(w, p)) && rows == old(rows)
                               && skipped == old(skipped) && byReason == old(byReason)
      ensures h.RowClosed? ==>
                && rows == before + [CheckRow(p, VerdictOf(FateOf(w, p)), 0, false)]
                && Requests(rows) == Requests(before) && Sent(rows) == Sent(before)
                && skipped == old(skipped) + 1 && byReason == old(byReason) + multiset{FateOf(w, p).reason}
                && wire.sends == old(wire.sends)
      ensures sender != null <==> HasSender(w, p)
      ensures sender == null ==> wire.sends == old(wire.sends)
      ensures sender != null ==>
        && wire.sends == SentBy(wire.answer, old(wire.sends), w.behave(p).paths)
        && sender.sent == IssuedCount(wire.answer, old(wire.sends), wire.sends)
      ensures IssuedCount(wire.answer, start, wire.sends)
              == IssuedCount(wire.answer, start, old(wire.sends)) + if sender == null then 0 else sender.sent
      ensures !h.Left? ==>
                && filed == FileAll(old(filed), w.surfaces[p.0], w.checks[p.1], StoredBy(FateOf(w, p)))
                && seen == old(seen) + KeysOf(w.surfaces[p.0], w.checks[p.1], StoredBy(FateOf(w, p)))
                && offered == old(offered) + OfferOf(w, p) && Tallied()
      ensures bracket != null ==> Lived() == old(Lived()).(pos := wire.sends)
    {
      hide FileAll, KeysOf, Requests, Reasons, Sent, IssuedCount, SentBy, ScanRun.Tallied, ScanRun.AllTrue, SkipReason;
      var c := w.checks[p.1];
      NothingStored(filed, w.surfaces[p.0], c);
      sender := null;
      if c.hook == Probes {
        var why := SkipReason(w.hasBridge, w.surfaces[p.0], c);
        if why.Some? {
          if (p, ClosingSkip) in w.storeFails {
            return CloseWith(Error), null;
          }
          Skip(why.value, before, p);
          return RowClosed, null;
        }
        sender := new ProbeSender(wire);
        ghost var mid := wire.sends;
        var got := sender.GetAll(w.behave(p).paths);
        IssuedCountSplits(wire.answer, start, mid, wire.sends);
      }
      if c.hook == NoHook {
        return CloseWith(Error), sender;
      }
      match w.behave(p).ending {
        case Returns(v, failAt) =>
          var verdict := Accept(p, v, failAt);
          h := CloseWith(verdict);
        case ReturnsNone => h := CloseWith(Error);
        case ReturnsJunk => h := CloseWith(Error);
        case Refuses => h := CloseWith(Inconclusive);
        case Raises => h := CloseWith(Error);
        case Interrupted => h := Left;
      }
    }

    /** What is owed while a row is open: all but what its own sender has issued. */
    ghost predicate Owing(start: nat, before: seq<CheckRow>, sent: nat)
      reads `bracket, wire, bracket, Window()
    {
      && start <= wire.sends
      && Requests(before) + sent + (if bracket == null then 0 else bracket.canaryRequests)
         == IssuedCount(wire.answer, start, wire.sends)
      && (bracket != null ==> bracket.wire == wire && bracket.Running() && Counted(bracket.trace) == Sent(before))
    }

    /** The close of a row that was not skipped, which is also where its requests
        are told to the tally and to the identity window. */
    method Conclude(p: Pair, verdict: RowVerdict, sender: ProbeSender?, ghost start: nat, ghost before: seq<CheckRow>)
      returns (step: Step)
      requires InWorld(w, p) && rows == before + [CheckRow(p, Pending, 0, false)]
      requires Owing(start, before, if sender == null then 0 else sender.sent)
      requires bracket != null ==> !bracket.due
      requires !verdict.Skipped?
      modifies this`rows, this`refused, bracket, Window()
      ensures bracket == old(bracket)
      ensures step.Goes? ==>
        rows == before + [CheckRow(p, verdict, if sender == null then 0 else old(sender.sent), sender != null)]
      ensures step.Goes? ==> Accounted(start) && Reasons(rows) == Reasons(before)
      ensures step.Goes? <==> (p, Closing) !in w.storeFails
      ensures !step.RaisesDead?
      ensures bracket != null ==>
        Lived() == old(Lived()).(since := old(Lived()).since + if sender == null then 0 else old(sender.sent))
    {
      hide ScanRun.Lived, IdentityBracket.Running, IssuedCount, Requests, Sent, Counted, Reasons;
      ghost var t := if bracket == null then [] else bracket.trace;
      var n := Spend(sender);
      CountedAppend(t, n);
      if (p, Closing) in w.storeFails {
        return RaisesOther;
      }
      CloseRow(verdict, n, sender != null);
      CloseAppended(before, CheckRow(p, Pending, 0, false), verdict, n, sender != null);
      Appended(before, CheckRow(p, verdict, n, sender != null));
      step := Goes;
    }

    /** An open row, to its close. */
    method OneRow(p: Pair, ghost before: seq<CheckRow>, ghost start: nat) returns (step: Step, ghost r: CheckRow)
      requires InWorld(w, p) && p.0 !in w.late && Tallied() && AllTrue()
      requires rows == before + [CheckRow(p, Pending, 0, false)] && Owing(start, before, 0)
      requires bracket != null ==> !bracket.due
      modifies this`rows, this`skipped, this`byReason, this`refused, this`filed,
               this`seen, this`observed, this`findings, this`offered, wire, bracket, Window()
      ensures bracket == old(bracket) && AllTrue()
      ensures step.Goes? ==>
        && rows == before + [r] && RowOf(w, p, r)
        && (if r.verdict.Skipped?
            then skipped == old(skipped) + 1 && byReason == old(byReason) + multiset{r.verdict.reason}
            else skipped == old(skipped) && byReason == old(byReason))
      ensures step.Goes? ==>
        && filed == FileAll(old(filed), w.surfaces[p.0], w.checks[p.1], StoredBy(FateOf(w, p)))
        && seen == old(seen) + KeysOf(w.surfaces[p.0], w.checks[p.1], StoredBy(FateOf(w, p)))
        && offered == old(offered) + OfferOf(w, p) && Tallied()
      ensures step.Goes? ==> Accounted(start)
      ensures step.Goes? <==> !FateOf(w, p).Escapes? && (FateOf(w, p).Skips? || (p, Closing) !in w.storeFails)
      ensures !step.RaisesDead?
      ensures bracket != null && step.Goes? ==> RowFrom(w, wire.answer, Some(old(Lived())), p) == Some(Lived())
    {
      hide FateOf, VerdictOf, HasSender, FileAll, KeysOf, StoredBy, OfferOf, Requests, Reasons, Sent, Counted;
      hide IssuedCount, SentBy, IdentityBracket.Running, ScanRun.Lived, ScanRun.Tallied, ScanRun.AllTrue;
      SaysItsFate(w, p);
      var h, sender := Handle(p, before, start);
      r := CheckRow(p, VerdictOf(FateOf(w, p)), if sender == null then 0 else sender.sent, sender != null);
      step := RaisesOther;
      if h.RowClosed? {
        step := Goes;
      } else if h.CloseWith? {
        step := Conclude(p, h.verdict, sender, start, before);
      }
    }

    /** The session is dead, and the last canary said so. */
    ghost predicate CanaryStopped()
      reads `bracket, bracket
    {
      bracket != null && EndsDead(bracket.trace)
    }

    /** The canary, if one is due, between two rows. */
    method CanaryFirst(ghost start: nat) returns (step: Step)
      requires Accounted(start)
      modifies wire, bracket, Window()
      ensures step.Goes? ==> Owing(start, rows, 0) && (bracket != null ==> !bracket.due)
      ensures bracket == old(bracket) && (!step.Goes? ==> CanaryStopped())
      ensures bracket != null ==>
        DueFrom(bracket.Id(), wire.answer, old(Lived())) == if step.Goes? then Some(Lived()) else None
      ensures step.RaisesDead? <==> bracket != null && FindsDead(bracket.Id(), wire.answer, old(Lived()))
    {
      hide SettledFrom;
      if bracket == null {
        return Goes;
      }
      ghost var t, mid := bracket.trace, wire.sends;
      step := bracket.CanaryIfDue();
      if step.Goes? {
        CountedCanaries(t, bracket.trace);
        IssuedCountSplits(wire.answer, start, mid, wire.sends);
      }
    }

    /** One pair: the canary if one is due, then the row. */
    method OneCheck(p: Pair, ghost done: seq<Pair>, ghost was: Findings, ghost start: nat, ghost outset: Session)
      returns (step: Step)
      requires InWorld(w, p) && p.0 !in w.late
      requires RowsKept(done) && FindingsKept(done, was) && Accounted(start) && Followed(outset, done)
      modifies this`rows, this`checksRun, this`skipped, this`byReason, this`refused, this`filed,
               this`seen, this`observed, this`findings, this`offered, wire, bracket, Window()
      ensures bracket == old(bracket) && AllTrue()
      ensures step.Goes? ==> RowsKept(done + [p]) && FindingsKept(done + [p], was) && Accounted(start)
      ensures step.Goes? ==> !Stops(w, p)
      ensures !step.Goes? ==> Stops(w, p) || (CanaryStopped() && Dies(outset, done + [p]))
      ensures step.Goes? ==> Followed(outset, done + [p])
      ensures step.RaisesDead? <==> old(DeadNow(outset, done))
    {
      hide FateOf, VerdictOf, HasSender, StoredBy, FileAll, KeysOf, OfferOf, Table, Seen, Offers;
      hide Requests, Sent, Reasons, Counted, IssuedCount;
      hide ScanRun.Tallied, ScanRun.AllTrue, IdentityBracket.Running, DueFrom, RowFrom, PairsFrom;
      ghost var before := rows;
      if bracket != null {
        PairsStep(bracket.Id(), w, wire.answer, outset, done, p);
        NoRowOfTheDead(w, wire.answer, p);
      }
      step := CanaryFirst(start);
      if !step.Goes? {
        return;
      }
      var ok := OpenRow(p);
      if !ok {
        return RaisesOther;
      }
      ghost var r;
      step, r := OneRow(p, before, start);
      if step.Goes? {
        FilledAppend(w, done, before, p, r);
        Appended(before, r);
        LedgersAppend(w, was, done, p);
      }
    }

    /** One check of a surface the run had no time for. */
    method SkipLate(p: Pair, ghost done: seq<Pair>, ghost was: Findings) returns (ok: bool)
      requires InWorld(w, p) && p.0 in w.late && RowsFilled(done) && FindingsKept(done, was)
      modifies this`rows, this`checksRun, this`byReason
      ensures ok <==> !Stops(w, p)
      ensures ok ==> RowsFilled(done + [p]) && FindingsKept(done + [p], was)
      ensures ok ==> Requests(rows) == Requests(old(rows)) && Sent(rows) == Sent(old(rows))
      ensures ok ==> |byReason| == |old(byReason)| + 1
    {
      hide FateOf, VerdictOf, HasSender, StoredBy, FileAll, KeysOf, OfferOf, Table, Seen, Offers;
      hide Requests, Sent, Reasons, Counted, IssuedCount, ScanRun.Tallied, ScanRun.AllTrue, IdentityBracket.Running;
      ghost var before := rows;
      LateStops(w, p);
      ok := OpenRow(p);
      if !ok || (p, Closing) in w.storeFails {
        return false;
      }
      CloseRow(Skipped("budget"), 0, false);
      byReason := byReason + multiset{"budget"};
      ghost var r := CheckRow(p, Skipped("budget"), 0, false);
      CloseAppended(before, CheckRow(p, Pending, 0, false), Skipped("budget"), 0, false);
      LateRow(w, was, done, before, p);
      Appended(before, r);
    }

    /** `_skip_rest`: the checks of a surface reached too late are recorded, never
        left absent. */
    method SkipRest(i: nat, ghost done: seq<Pair>, ghost was: Findings) returns (ok: bool, n: nat)
      requires i < |w.surfaces| && i in w.late && RowsFilled(done) && FindingsKept(done, was)
      modifies this`rows, this`checksRun, this`byReason
      ensures ok <==> Passable(w, i)
      ensures ok ==> RowsFilled(done + Block(i, |w.checks|)) && FindingsKept(done + Block(i, |w.checks|), was)
      ensures ok ==> Requests(rows) == Requests(old(rows)) && Sent(rows) == Sent(old(rows))
      ensures ok ==> n == |w.checks| && |byReason| == |old(byReason)| + n
    {
      hide FateOf, VerdictOf, HasSender, StoredBy, FileAll, KeysOf, OfferOf, Table, Seen, Offers, Filled;
      hide Requests, Sent, Reasons, Counted, IssuedCount, ScanRun.Tallied, ScanRun.AllTrue, IdentityBracket.Running;
      hide ScanRun.RowsFilled, ScanRun.FindingsKept;
      assert done + Block(i, 0) == done;
      for j := 0 to |w.checks|
        invariant forall k :: 0 <= k < j ==> !Stops(w, (i, k))
        invariant RowsFilled(done + Block(i, j)) && FindingsKept(done + Block(i, j), was)
        invariant Requests(rows) == Requests(old(rows)) && Sent(rows) == Sent(old(rows))
        invariant |byReason| == |old(byReason)| + j
      {
        ok := SkipLate((i, j), done + Block(i, j), was);
        if !ok {
          return false, 0;
        }
        BlockAppend(i, j);
        assert done + Block(i, j) + [(i, j)] == done + Block(i, j + 1);
      }
      ok, n := true, |w.checks|;
    }

    /** The checks of one surface in time, up to the first that the pass is left at. */
    method EachCheck(i: nat, ghost done: seq<Pair>, ghost was: Findings, ghost start: nat, ghost outset: Session)
      returns (step: Step)
      requires i < |w.surfaces| && i !in w.late && i !in w.heartbeatFails
      requires RowsKept(done) && FindingsKept(done, was) && Accounted(start) && Followed(outset, done)
      modifies this`rows, this`checksRun, this`skipped, this`byReason, this`refused, this`filed, this`seen,
               this`observed, this`findings, this`offered, wire, bracket, Window()
      ensures bracket == old(bracket) && AllTrue()
      ensures step.Goes? ==>
        RowsKept(done + Block(i, |w.checks|)) && FindingsKept(done + Block(i, |w.checks|), was) && Accounted(start)
      ensures step.Goes? ==> Passable(w, i)
      ensures !step.Goes? ==> !Passable(w, i) || (CanaryStopped() && Dies(outset, done + Block(i, |w.checks|)))
      ensures step.Goes? ==> Followed(outset, done + Block(i, |w.checks|))
      ensures step.RaisesDead? <==> old(DeadIn(outset, done, i))
    {
      hide FateOf, VerdictOf, HasSender, StoredBy, FileAll, KeysOf, OfferOf, Table, Seen, Offers, Filled;
      hide Requests, Sent, Reasons, Counted, IssuedCount, ScanRun.Tallied, ScanRun.AllTrue, IdentityBracket.Running;
      hide ScanRun.RowsFilled, PairsFrom, Stops, Block;
      BlockStarts(done, i);
      for j := 0 to |w.checks|
        invariant bracket == old(bracket)
        invariant forall k :: 0 <= k < j ==> !Stops(w, (i, k))
        invariant RowsKept(done + Block(i, j)) && FindingsKept(done + Block(i, j), was) && Accounted(start)
        invariant Followed(outset, done + Block(i, j))
        invariant forall k: nat :: k < j ==> !DeadNow(outset, done + Block(i, k))
      {
        BlockAppend(i, j);
        assert done + Block(i, j) + [(i, j)] == done + Block(i, j + 1);
        step := OneCheck((i, j), done + Block(i, j), was, start, outset);
        if !step.Goes? {
          DiesOn(outset, done, i, j + 1);
          StopsHere(outset, done, i, j, step.RaisesDead?);
          return;
        }
        NotDeadThere(outset, done, i, j);
      }
      step := Goes;
    }

    lemma BlockStarts(done: seq<Pair>, i: nat)
      ensures done + Block(i, 0) == done
    {
    }

    /** One surface of the filter, in time or too late. */
    method OneSurface(i: nat, ghost done: seq<Pair>, ghost was: Findings, ghost start: nat, ghost outset: Session)
      returns (step: Step)
      requires i < |w.surfaces| && RowsKept(done) && FindingsKept(done, was) && Accounted(start)
      requires Followed(outset, done)
      modifies this`rows, this`checksRun, this`surfaces, this`skipped, this`byReason, this`refused, this`filed,
               this`seen, this`observed, this`findings, this`offered, wire, bracket, Window()
      ensures bracket == old(bracket) && AllTrue()
      ensures step.Goes? ==>
        && RowsKept(done + Block(i, |w.checks|)) && FindingsKept(done + Block(i, |w.checks|), was) && Accounted(start)
        && surfaces == old(surfaces) + if i in w.late then 0 else 1
      ensures step.Goes? ==> Passable(w, i)
      ensures !step.Goes? ==> !Passable(w, i) || (CanaryStopped() && Dies(outset, done + Block(i, |w.checks|)))
      ensures step.Goes? ==> Followed(outset, done + Block(i, |w.checks|))
      ensures step.RaisesDead? <==> old(DeadIn(outset, done, i))
    {
      hide FateOf, VerdictOf, HasSender, StoredBy, FileAll, KeysOf, OfferOf, Table, Seen, Offers, Filled;
      hide Requests, Sent, Reasons, Counted, IssuedCount, ScanRun.Tallied, ScanRun.AllTrue, IdentityBracket.Running;
      hide ScanRun.RowsFilled, PairsFrom, Stops, Block;
      if i in w.late {
        LateFollows(outset, done, i);
        var ok, n := SkipRest(i, done, was);
        if !ok {
          return RaisesOther;
        }
        skipped := skipped + n;
        return Goes;
      }
      surfaces := surfaces + 1;
      if i in w.heartbeatFails {
        return RaisesOther;
      }
      step := EachCheck(i, done, was, start, outset);
    }

    /** On its way through surface `i`, behind these pairs, the pass finds it dead. */
    ghost predicate DeadIn(s: Session, done: seq<Pair>, i: nat)
      reads `bracket
    {
      i !in w.late && i !in w.heartbeatFails && exists j: nat :: DeadFrom(s, done, i, j)
    }

    ghost predicate DeadFrom(s: Session, done: seq<Pair>, i: nat, j: nat)
      reads `bracket
    {
      i < |w.surfaces| && j < |w.checks| && (forall k :: 0 <= k < j ==> !Stops(w, (i, k)))
      && DeadNow(s, done + Block(i, j))
    }

    lemma NotDeadThere(s: Session, done: seq<Pair>, i: nat, j: nat)
      requires i < |w.surfaces| && j < |w.checks| && i !in w.late && AllIn(w, done)
      requires Followed(s, done + Block(i, j + 1))
      ensures !DeadNow(s, done + Block(i, j))
    {
      hide PairsFrom, FindsDead;
      BlockAppend(i, j);
      assert done + Block(i, j) + [(i, j)] == done + Block(i, j + 1);
      if bracket != null {
        LivedThrough(bracket.Id(), w, wire.answer, s, done + Block(i, j), (i, j));
      }
    }

    /** The pass stopped at check `j`: it was the session that died there, or the
        session dies nowhere the pass gets to. */
    lemma StopsHere(s: Session, done: seq<Pair>, i: nat, j: nat, dead: bool)
      requires i < |w.surfaces| && j < |w.checks| && i !in w.late && i !in w.heartbeatFails && AllIn(w, done)
      requires forall k :: 0 <= k < j ==> !Stops(w, (i, k))
      requires forall k: nat :: k < j ==> !DeadNow(s, done + Block(i, k))
      requires dead <==> DeadNow(s, done + Block(i, j))
      requires Stops(w, (i, j)) || Dies(s, done + Block(i, j + 1))
      ensures dead <==> DeadIn(s, done, i)
    {
      hide PairsFrom, FindsDead, Stops;
      if dead {
        assert DeadFrom(s, done, i, j);
      }
      forall k: nat | j < k && k < |w.checks| ensures !DeadFrom(s, done, i, k) {
        if DeadFrom(s, done, i, k) {
          assert done + Block(i, j + 1) == (done + Block(i, k))[..|done| + j + 1];
          DeadStaysDead(bracket.Id(), w, wire.answer, s, done + Block(i, j + 1), done + Block(i, k));
          assert false;
        }
      }
    }

    lemma LateFollows(outset: Session, done: seq<Pair>, i: nat)
      requires i < |w.surfaces| && i in w.late && Followed(outset, done)
      ensures Followed(outset, done + Block(i, |w.checks|))
    {
      if bracket != null {
        LatePairs(bracket.Id(), w, wire.answer, outset, done, i, |w.checks|);
      }
    }

    lemma DiesOn(outset: Session, done: seq<Pair>, i: nat, j: nat)
      requires i < |w.surfaces| && j <= |w.checks| && AllIn(w, done)
      ensures Dies(outset, done + Block(i, j)) ==> Dies(outset, done + Block(i, |w.checks|))
    {
      if Dies(outset, done + Block(i, j)) {
        var whole := done + Block(i, |w.checks|);
        assert done + Block(i, j) == whole[..|done| + j];
        DeadStaysDead(bracket.Id(), w, wire.answer, outset, done + Block(i, j), whole);
      }
    }

    lemma DiesInPlan(outset: Session, n: nat)
      requires n <= |w.surfaces|
      ensures AllIn(w, Plan(w, n)) && AllIn(w, Plan(w, |w.surfaces|))
      ensures Dies(outset, Plan(w, n)) ==> Dies(outset, Plan(w, |w.surfaces|))
    {
      PlanInWorld(w, n);
      PlanInWorld(w, |w.surfaces|);
      PlanPrefix(w, n, |w.surfaces|);
      if Dies(outset, Plan(w, n)) {
        DeadStaysDead(bracket.Id(), w, wire.answer, outset, Plan(w, n), Plan(w, |w.surfaces|));
      }
    }

    /** Somewhere the pass gets to, it finds the session dead. */
    ghost predicate DeadSomewhere(s: Session)
      reads `bracket
    {
      exists i: nat :: DeadOn(s, i)
    }

    ghost predicate DeadOn(s: Session, i: nat)
      reads `bracket
    {
      i < |w.surfaces| && i in w.chosen && Smooth(w, i) && DeadIn(s, Plan(w, i), i)
    }

    lemma LivedOn(s: Session, i: nat)
      requires i < |w.surfaces| && Followed(s, Plan(w, i) + Block(i, |w.checks|))
      ensures !DeadOn(s, i)
    {
      PlanInWorld(w, i);
      hide PairsFrom, FindsDead, Stops, Smooth, Plan;
      var done := Plan(w, i);
      forall j: nat | j < |w.checks| && i !in w.late && DeadFrom(s, done, i, j) ensures false {
        var some, all := done + Block(i, j + 1), done + Block(i, |w.checks|);
        assert some == all[..|done| + j + 1];
        DeadThere(s, done, i, j);
        DeadStaysDead(bracket.Id(), w, wire.answer, s, some, all);
      }
    }

    lemma DeadThere(s: Session, done: seq<Pair>, i: nat, j: nat)
      requires i < |w.surfaces| && j < |w.checks| && i !in w.late && AllIn(w, done) && DeadNow(s, done + Block(i, j))
      ensures AllIn(w, done + Block(i, j + 1))
      ensures PairsFrom(bracket.Id(), w, wire.answer, s, done + Block(i, j + 1)).None?
    {
      hide PairsFrom, FindsDead;
      BlockAppend(i, j);
      assert done + Block(i, j) + [(i, j)] == done + Block(i, j + 1);
      LivedThrough(bracket.Id(), w, wire.answer, s, done + Block(i, j), (i, j));
    }

    lemma StopsOn(s: Session, i: nat, dead: bool)
      requires i < |w.surfaces| && i in w.chosen && Smooth(w, i) && (dead <==> DeadIn(s, Plan(w, i), i))
      requires forall k: nat :: k < i ==> !DeadOn(s, k)
      requires !Passable(w, i) || Dies(s, Plan(w, i + 1))
      ensures dead <==> DeadSomewhere(s)
    {
      hide PairsFrom, FindsDead, Stops, Passable;
      if dead {
        assert DeadOn(s, i);
      }
      forall k: nat | i < k < |w.surfaces| && DeadOn(s, k) ensures false {
        assert Passable(w, i);
        PlanInWorld(w, k);
        PlanPrefix(w, i + 1, k);
        var j: nat :| DeadFrom(s, Plan(w, k), k, j);
        DeadStaysDead(bracket.Id(), w, wire.answer, s, Plan(w, i + 1), Plan(w, k) + Block(k, j));
      }
    }

    /** Every surface. */
    method Pass(ghost was: Findings, ghost start: nat, ghost outset: Session) returns (step: Step)
      requires RowsKept([]) && FindingsKept([], was) && Accounted(start) && surfaces == 0 && Followed(outset, [])
      modifies this`rows, this`checksRun, this`surfaces, this`skipped, this`byReason, this`refused, this`filed,
               this`seen, this`observed, this`findings, this`offered, wire, bracket, Window()
      ensures bracket == old(bracket) && AllTrue()
      ensures step.Goes? ==> RowsKept(Plan(w, |w.surfaces|)) && FindingsKept(Plan(w, |w.surfaces|), was)
                             && Accounted(start) && surfaces == Visited(w, |w.surfaces|)
      ensures step.Goes? ==> Smooth(w, |w.surfaces|)
      ensures !step.Goes? ==> !Smooth(w, |w.surfaces|) || (CanaryStopped() && Dies(outset, Plan(w, |w.surfaces|)))
      ensures step.Goes? ==> Followed(outset, Plan(w, |w.surfaces|))
      ensures step.RaisesDead? <==> old(DeadSomewhere(outset))
    {
      hide FateOf, VerdictOf, HasSender, StoredBy, FileAll, KeysOf, OfferOf, Table, Seen, Offers, Filled;
      hide Requests, Sent, Reasons, Counted, IssuedCount, ScanRun.Tallied, ScanRun.AllTrue, IdentityBracket.Running;
      hide ScanRun.RowsKept, ScanRun.Accounted, ScanRun.Followed, ScanRun.Dies, ScanRun.DeadIn;
      for i := 0 to |w.surfaces|
        invariant bracket == old(bracket) && surfaces == Visited(w, i) && Smooth(w, i)
        invariant RowsKept(Plan(w, i)) && FindingsKept(Plan(w, i), was) && Accounted(start)
        invariant Followed(outset, Plan(w, i))
        invariant forall k: nat :: k < i ==> !DeadOn(outset, k)
      {
        if i in w.chosen {
          DiesInPlan(outset, i + 1);
          step := OneSurface(i, Plan(w, i), was, start, outset);
          if !step.Goes? {
            DiesInPlan(outset, i + 1);
            StopsOn(outset, i, step.RaisesDead?);
            return;
          }
          LivedOn(outset, i);
        } else {
          assert Plan(w, i) + [] == Plan(w, i);
        }
      }
      assert !DeadSomewhere(outset);
      step := Goes;
    }

    /** `_mark_unobserved`, over the finding rows of the engagement in the order
        the store lists them. */
    method MarkUnobserved(listing: seq<DedupeKey>, proved: Option<Origin>) returns (ok: bool)
      requires Tallied() && AllTrue() && forall k :: k in listing <==> k in filed
      modifies this`observed
      ensures ok <==> !(w.markFails && AnyRetirable(offered, identityState, proved))
      ensures ok ==> Retested(proved)
      ensures !ok ==> observed == old(observed)
    {
      hide Retirable, Examined, AnyRetirable;
      var considered := Considered(offered, identityState, proved);
      ConsideredMeans(offered, identityState, proved);
      hide Considered;
      if considered == {} {
        return true;
      }
      if w.markFails {
        return false;
      }
      var said := observed;
      for n := 0 to |listing|
        invariant forall k :: k in said <==>
            k in seen || (k in listing[..n] && Examined(offered, identityState, proved, filed[k]))
        invariant forall k <- said :: said[k] <==> k in seen
      {
        var k := listing[n];
        assert listing[..n + 1] == listing[..n] + [k];
        if k !in seen && (filed[k].surface, filed[k].check, filed[k].issue) in considered {
          said := said[k := false];
        }
      }
      assert listing[..|listing|] == listing;
      observed := said;
      ok := true;
    }

    /** This run's answer about every finding on file: seen, retired, or nothing. */
    ghost predicate Retested(proved: Option<Origin>)
      reads `observed, `seen, `filed, `offered, `identityState
    {
      && (forall k :: k in observed <==>
            k in seen || (k in filed && Examined(offered, identityState, proved, filed[k])))
      && (forall k <- observed :: observed[k] <==> k in seen)
    }

    /** A run that has done nothing. */
    ghost predicate Unstarted()
      reads this
    {
      && bracket == null && rows == [] && Summary() == (0, 0, 0, multiset{}, 0)
      && seen == {} && observed == map[] && offered == [] && identityState.None?
    }

    /** The opening canary, as the wire answers it, finds the session dead. */
    ghost predicate OpensDead(who: Named, start: nat) {
      who.registers && SendablePath(who.id.liveness.path)
      && var s := SettledFrom(who.id, wire.answer, start, 1); !s.live && !s.lost
    }

    /** Or it opens live, and a canary somewhere in the pass does. */
    ghost predicate FoundDead(who: Named, start: nat) {
      || OpensDead(who, start)
      || (who.registers && SendablePath(who.id.liveness.path) && SettledFrom(who.id, wire.answer, start, 1).live
          && DeadInPass(who.id, w, wire.answer, OpensAs(who.id, wire.answer, start)))
    }

    lemma DeadSomewhereMeans(s: Session)
      ensures DeadSomewhere(s) <==> bracket != null && DeadInPass(bracket.Id(), w, wire.answer, s)
    {
      hide PairsFrom, FindsDead, Stops, Smooth, Plan;
      if DeadSomewhere(s) {
        var i: nat :| DeadOn(s, i);
        var j: nat :| DeadFrom(s, Plan(w, i), i, j);
        assert DeadAt(bracket.Id(), w, wire.answer, s, i, j);
      }
      if bracket != null && DeadInPass(bracket.Id(), w, wire.answer, s) {
        var i: nat, j: nat :| DeadAt(bracket.Id(), w, wire.answer, s, i, j);
        assert DeadFrom(s, Plan(w, i), i, j);
        assert DeadOn(s, i);
      }
    }

    /** `_identity_bracket` and the opening canary. */
    method Prepare(who: Option<Named>, ghost start: nat) returns (step: Step)
      requires bracket == null && rows == [] && wire.sends == start
      requires who.Some? ==> who.value.id.every >= 1
      modifies this`bracket, wire
      ensures bracket != null ==> fresh(bracket) && fresh(bracket.window)
      ensures bracket != null <==> Carries(w, who.Some?)
      ensures bracket != null ==> exists i: nat :: FirstChosen(w, i) && bracket.target == OriginOf(w.surfaces[i])
      ensures step.Goes? ==> Accounted(start)
      ensures start <= wire.sends
      ensures !step.Goes? ==>
        bracket != null && (!who.value.registers || !SendablePath(who.value.id.liveness.path) || CanaryStopped())
      ensures bracket != null ==> bracket.Id() == who.value.id
      ensures bracket != null ==>
        var s := SettledFrom(who.value.id, wire.answer, start, 1);
        && (step.Goes? <==> who.value.registers && SendablePath(who.value.id.liveness.path) && s.live)
        && (step.Goes? ==> Followed(OpensAs(who.value.id, wire.answer, start), []))
      ensures step.RaisesDead? <==> bracket != null && OpensDead(who.value, start)
    {
      hide SettledFrom, SendablePath, IssuedCount;
      if !w.hasBridge || !exists c <- w.checks :: c.hook == Probes {
        return Goes;
      }
      var i: nat := 0;
      while i < |w.surfaces| && i !in w.chosen
        invariant i <= |w.surfaces| && forall k :: 0 <= k < i ==> k !in w.chosen
      {
        i := i + 1;
      }
      if i == |w.surfaces| || who.None? {
        return Goes;
      }
      var id := who.value.id;
      var target := OriginOf(w.surfaces[i]);
      bracket := new IdentityBracket(wire, id.liveness, id.programmatic, id.refreshes, id.every, target);
      assert FirstChosen(w, i);
      step := bracket.Start(who.value.registers);
      if step.Goes? {
        CountedCanaries([], bracket.trace);
        PacedCanaries(bracket.trace, id.every);
      }
    }

    function Proved(): Option<Origin>
      reads `bracket, bracket
    {
      if bracket == null then None else Some(bracket.target)
    }

    /** What the settled state of the run says of its whole trace. */
    ghost predicate Vouched()
      reads `bracket, `rows, `identityState, bracket, Window()
    {
      if bracket == null then identityState.None?
      else
        var t := bracket.trace;
        && IdentityTrace.Opening(t, bracket.openLen) && t[|t| - 1].Canary? && Paced(t, bracket.window.dueEvery)
        && Counted(t) == Sent(rows)
        && identityState == Some(if AllPassed(t, bracket.openLen) then Proven else Assumed)
        && (identityState == Some(Proven) ==> forall r :: 0 <= r < |t| && t[r].Row? ==> Bracketed(t, r))
    }

    /** The closing canary, the state it settles, and only then the retirement. */
    method Settle(listing: seq<DedupeKey>, ghost start: nat) returns (ok: bool)
      requires Accounted(start) && identityState.None? && Tallied() && AllTrue()
      requires forall k :: k in listing <==> k in filed
      modifies this`identityState, this`observed, wire, bracket, Window()
      ensures Vouched() && start <= wire.sends && (bracket == null ==> identityState.None?)
      ensures Requests(rows) + (if bracket == null then 0 else bracket.canaryRequests)
              == IssuedCount(wire.answer, start, wire.sends)
      ensures ok ==> Retested(Proved())
      ensures !ok ==> AllTrue()
      ensures ok <==> !(w.markFails && AnyRetirable(offered, identityState, Proved()))
      ensures bracket == old(bracket)
      ensures bracket != null ==>
        var s := old(Lived());
        identityState == Some(if s.clean && Passes(bracket.liveness, wire.answer, s.pos) then Proven else Assumed)
    {
      hide Passes, Requests, Sent, Counted, IssuedCount, Bracketed, AllPassed, Paced, Examined, ScanRun.Retested;
      if bracket != null {
        ghost var t, mid := bracket.trace, wire.sends;
        bracket.Finish();
        CountedCanaries(t, bracket.trace);
        IssuedCountSplits(wire.answer, start, mid, wire.sends);
        identityState := Some(bracket.window.StateForRun());
      }
      ok := MarkUnobserved(listing, Proved());
    }

    /** Everything a run that came to its end has kept. */
    ghost predicate Accomplished(who: Option<Named>, was: Findings, start: nat)
      reads `rows, `checksRun, `surfaces, `skipped, `byReason, `filed, `seen, `observed, `findings, `offered,
            `identityState, `bracket, wire, bracket, Window()
    {
      var plan := Plan(w, |w.surfaces|);
      && RowsKept(plan) && surfaces == Visited(w, |w.surfaces|)
      && filed == Table(w, was, plan) && seen == Seen(w, plan) && findings == |seen| && offered == Offers(w, plan)
      && start <= wire.sends
      && Requests(rows) + (if bracket == null then 0 else bracket.canaryRequests)
         == IssuedCount(wire.answer, start, wire.sends)
      && (bracket != null <==> Carries(w, who.Some?))
      && (bracket != null ==> exists i: nat :: FirstChosen(w, i) && bracket.target == OriginOf(w.surfaces[i]))
      && Vouched() && Retested(Proved())
    }

    /** Retirement, over the whole run: a finding is marked unobserved exactly when
        it is on file, was not written this run, and a pair of the plan examined it
        under its own surface and check for its own issue type. When that check
        probes, the run's settled state is proven at that surface's origin, and
        every row the window was told of lies between two consecutive canaries
        that passed. */
    lemma Retires(who: Option<Named>, was: Findings, start: nat, k: DedupeKey)
      requires Accomplished(who, was, start)
      ensures k in observed && !observed[k] <==>
                k in filed && k !in Seen(w, Plan(w, |w.surfaces|))
                && exists p <- Plan(w, |w.surfaces|) :: ExaminedAt(w, p, identityState, Proved(), filed[k])
      ensures k in observed && !observed[k] ==> k in was && filed[k] == was[k]
      ensures k in observed && !observed[k] && (forall p <- Plan(w, |w.surfaces|) ::
                  ExaminedAt(w, p, identityState, Proved(), filed[k]) ==> w.checks[p.1].hook == Probes) ==>
                && bracket != null && identityState == Some(Proven)
                && Counted(bracket.trace) == Sent(rows)
                && forall r :: 0 <= r < |bracket.trace| && bracket.trace[r].Row? ==> Bracketed(bracket.trace, r)
    {
      var plan := Plan(w, |w.surfaces|);
      if k in filed {
        ExaminedMeans(w, plan, identityState, Proved(), filed[k]);
      }
      TableOutside(w, was, plan, k);
    }

    /** Of a finished run, any two candidates that were written are on file and seen,
        on one row exactly when they are one finding, and counted as two when they
        are not; and when all that was written is one finding, one is counted. */
    lemma CountsFindings(who: Option<Named>, was: Findings, start: nat, p: Pair, i: nat, q: Pair, j: nat)
      requires Accomplished(who, was, start) && p in Plan(w, |w.surfaces|) && q in Plan(w, |w.surfaces|)
      requires InWorld(w, p) && i < |StoredBy(FateOf(w, p))| && InWorld(w, q) && j < |StoredBy(FateOf(w, q))|
      ensures var a, b := StoredKey(w, p, i), StoredKey(w, q, j);
        && a in filed && a in observed && observed[a] && b in filed && b in observed && observed[b]
        && (StoredBy(FateOf(w, p))[i].scope == StoredBy(FateOf(w, q))[j].scope ==>
              (a == b <==> SameFinding(w, p, i, q, j)))
        && (a != b ==> findings >= 2)
      ensures AllOneFinding(w, Plan(w, |w.surfaces|), StoredKey(w, p, i)) ==> findings == 1
    {
      hide FateOf, StoredBy, Plan, Table, Offers, Filled, KeyOf, ScanRun.Vouched;
      var plan := Plan(w, |w.surfaces|);
      PlanInWorld(w, |w.surfaces|);
      SeenApart(w, plan, p, i, q, j);
      if StoredBy(FateOf(w, p))[i].scope == StoredBy(FateOf(w, q))[j].scope {
        SightingsAgree(w, p, i, q, j);
      }
      TableOutside(w, was, plan, StoredKey(w, p, i));
      TableOutside(w, was, plan, StoredKey(w, q, j));
    }

    /** The row of a pair closed `error` retires a finding exactly when what it
        lost was a finding verdict that considered that issue type, and nothing
        else stands in the way: the finding is on file under the row's surface and
        check, nothing this run wrote is it, and a probing check was proven there. */
    lemma ErrorRowRetires(who: Option<Named>, was: Findings, start: nat, p: Pair, k: DedupeKey)
      requires Accomplished(who, was, start) && p in Plan(w, |w.surfaces|) && InWorld(w, p)
      requires VerdictOf(FateOf(w, p)) == Error
      ensures k in observed && !observed[k] && ExaminedAt(w, p, identityState, Proved(), filed[k]) <==>
        && k in filed && k !in Seen(w, Plan(w, |w.surfaces|)) && FindingLost(w, p, filed[k].issue)
        && w.surfaces[p.0].id == filed[k].surface && w.checks[p.1].id == filed[k].check
        && (w.checks[p.1].hook == Probes ==>
              identityState == Some(Proven) && Proved() == Some(OriginOf(w.surfaces[p.0])))
    {
      hide FateOf, Plan, Seen, ScanRun.Vouched, Filled;
      Retires(who, was, start, k);
      if k in filed {
        ErrorRowExamines(w, p, identityState, Proved(), filed[k]);
      }
    }

    /** The pass, the close and the retirement of a run whose session is open. */
    method Onward(who: Option<Named>, listing: Findings -> seq<DedupeKey>, ghost was: Findings, ghost start: nat,
                  ghost outset: Session) returns (step: Step)
      requires RowsKept([]) && FindingsKept([], was) && Accounted(start) && surfaces == 0 && Followed(outset, [])
      requires forall t, k :: k in listing(t) <==> k in t
      requires identityState.None? && (bracket != null <==> Carries(w, who.Some?))
      requires bracket != null ==> exists i: nat :: FirstChosen(w, i) && bracket.target == OriginOf(w.surfaces[i])
      modifies this`rows, this`checksRun, this`surfaces, this`skipped, this`byReason, this`refused, this`filed,
               this`seen, this`observed, this`findings, this`offered, this`identityState, wire, bracket, Window()
      ensures bracket == old(bracket)
      ensures step.Goes? ==> Accomplished(who, was, start) && Undisturbed(identityState, Proved())
      ensures !step.Goes? ==> AllTrue()
      ensures step.RaisesDead? <==> old(DeadSomewhere(outset))
      ensures !step.Goes? && bracket == null ==> !Undisturbed(None, None)
      ensures !step.Goes? && bracket != null ==> CanaryStopped() || !Smooth(w, |w.surfaces|) || w.markFails
      ensures bracket != null ==>
        var state := ClosesFor(outset);
        && (step.Goes? <==> state.Some? && Undisturbed(state, Proved()))
        && (step.Goes? ==> identityState == state)
    {
      hide FateOf, Table, Seen, Offers, Filled, Plan, Visited, Requests, Sent, Reasons, Counted, IssuedCount, Smooth;
      hide ScanRun.Vouched, ScanRun.Retested, ScanRun.Accounted, Carries, FirstChosen, AnyRetirable, PairsFrom, Passes;
      step := Pass(was, start, outset);
      if step.Goes? {
        var ok := Settle(listing(filed), start);
        if !ok {
          step := RaisesOther;
        }
      }
    }

    /** What the pass and the closing canary make of a session. */
    ghost function ClosesFor(s: Session): Option<State>
      requires bracket != null
      reads `bracket, bracket, Window()
    {
      PlanInWorld(w, |w.surfaces|);
      ClosesAs(bracket.Id(), wire.answer, PairsFrom(bracket.Id(), w, wire.answer, s, Plan(w, |w.surfaces|)))
    }

    /** The body of the run's `try`. */
    method Proceed(who: Option<Named>, listing: Findings -> seq<DedupeKey>) returns (step: Step)
      requires Unstarted() && forall t, k :: k in listing(t) <==> k in t
      requires who.Some? ==> who.value.id.every >= 1
      modifies this, wire
      ensures bracket != null <==> Carries(w, who.Some?)
      ensures step.Goes? ==> Accomplished(who, old(filed), old(wire.sends))
      ensures step.Goes? ==> Undisturbed(identityState, Proved())
      ensures !step.Goes? ==> AllTrue()
      ensures !step.Goes? && bracket == null ==> !Undisturbed(None, None)
      ensures !step.Goes? && bracket != null ==>
        || !who.value.registers || !SendablePath(who.value.id.liveness.path) || CanaryStopped()
        || !Smooth(w, |w.surfaces|) || w.markFails
      ensures bracket != null ==> exists i: nat :: FirstChosen(w, i) && bracket.target == OriginOf(w.surfaces[i])
      ensures bracket != null ==>
        var state := SettlesFor(who.value.id, old(wire.sends));
        && (step.Goes? <==> who.value.registers && state.Some? && Undisturbed(state, Proved()))
        && (step.Goes? ==> identityState == state)
      ensures step.RaisesDead? <==> bracket != null && FoundDead(who.value, old(wire.sends))
    {
      hide FateOf, Table, Seen, Offers, Filled, Plan, Visited, Requests, Sent, Reasons, Counted, IssuedCount, Smooth;
      hide ScanRun.DeadSomewhere, DeadInPass, ScanRun.OpensDead;
      hide ScanRun.Accounted, ScanRun.Accomplished, ScanRun.Undisturbed, FirstChosen, SendablePath;
      hide PairsFrom, SettledFrom, OpensAs, ClosesAs, ScanRun.Followed;
      NothingYet(w, filed);
      PlanInWorld(w, |w.surfaces|);
      ghost var was, start := filed, wire.sends;
      step := Prepare(who, start);
      if step.Goes? {
        ghost var outset := Session(0, 0, 0, true);
        if bracket != null {
          outset := OpensAs(who.value.id, wire.answer, start);
        } else {
          Unfollowed(outset);
        }
        DeadSomewhereMeans(outset);
        step := Onward(who, listing, was, start, outset);
      }
      OpenIsNotDead(who, start);
    }

    lemma OpenIsNotDead(who: Option<Named>, start: nat)
      ensures who.Some? && SettledFrom(who.value.id, wire.answer, start, 1).live ==> !OpensDead(who.value, start)
    {
    }

    lemma Unfollowed(s: Session)
      ensures bracket == null ==> Followed(s, [])
    {
    }

    /** What the answers on the wire make of the session, from `start` to its end. */
    ghost function SettlesFor(id: Ident, start: nat): Option<State> {
      PlanInWorld(w, |w.surfaces|);
      SettlesOn(id, w, wire.answer, start, Plan(w, |w.surfaces|))
    }

    /** Nothing the world holds against the pass or the retirement was met. */
    ghost predicate Undisturbed(state: Option<State>, proved: Option<Origin>) {
      PlanInWorld(w, |w.surfaces|);
      Smooth(w, |w.surfaces|) && !(w.markFails && AnyRetirable(Offers(w, Plan(w, |w.surfaces|)), state, proved))
    }

    /** The whole run. `listing` is the order the store hands the finding rows back
        in, whatever they have become by then. With no identity it completes
        exactly when nothing in its world stops it; with one, exactly when the
        identity registers, the answers on the wire open its session and keep it
        live through every canary, and nothing in the world stops it under the
        state they settle. */
    method Run(who: Option<Named>, listing: Findings -> seq<DedupeKey>) returns (status: Status)
      requires Unstarted() && forall t, k :: k in listing(t) <==> k in t
      requires who.Some? ==> who.value.id.every >= 1
      modifies this, wire
      ensures status.NoRow? <==> w.checks == []
      ensures status.NoRow? ==> Unstarted() && wire.sends == old(wire.sends)
      ensures status.Completed? ==> Accomplished(who, old(filed), old(wire.sends))
      ensures status.Completed? ==> Undisturbed(identityState, Proved())
      ensures w.checks != [] && !Carries(w, who.Some?) ==> (status.Completed? <==> Undisturbed(None, None))
      ensures status.Errored? && Carries(w, who.Some?) ==>
        || !who.value.registers || !SendablePath(who.value.id.liveness.path) || CanaryStopped()
        || !Smooth(w, |w.surfaces|) || w.markFails
      ensures w.checks != [] && Carries(w, who.Some?) ==>
        var state := SettlesFor(who.value.id, old(wire.sends));
        && Proved().Some? && (exists i: nat :: FirstChosen(w, i) && Proved() == Some(OriginOf(w.surfaces[i])))
        && (status.Completed? <==> who.value.registers && state.Some? && Undisturbed(state, Proved()))
        && (status.Completed? ==> identityState == state)
      ensures status.Errored? ==> AllTrue() && identityState != Some(Proven)
      ensures status.Errored? && !Carries(w, who.Some?) ==> identityState.None?
      ensures status.Errored? && Carries(w, who.Some?) ==>
        identityState == Some(if FoundDead(who.value, old(wire.sends)) then Dead else Assumed)
    {
      hide ScanRun.FoundDead, ScanRun.Accomplished, ScanRun.Undisturbed;
      hide Carries, SendablePath, Smooth, SettlesOn, FirstChosen;
      if w.checks == [] {
        return NoRow;
      }
      var step := Proceed(who, listing);
      if step.Goes? {
        UncarriedState(who, old(filed), old(wire.sends));
        return Completed;
      }
      identityState := if bracket == null then None else Some(if step.RaisesDead? then Dead else Assumed);
      status := Errored;
    }

    lemma UncarriedState(who: Option<Named>, was: Findings, start: nat)
      requires Accomplished(who, was, start)
      ensures bracket == null ==> identityState.None? && Proved().None?
      ensures bracket != null <==> Carries(w, who.Some?)
    {
    }

    /** In a run over the world of `Loses`, with a store that otherwise works, the
        finding found again is the finding retired. */
    method RetireWhatWasFound(listing: Findings -> seq<DedupeKey>, k: DedupeKey) returns (status: Status)
      requires Unstarted() && forall t, k :: k in listing(t) <==> k in t
      requires Loses(w) && !w.hasBridge && w.storeFails == {} && w.heartbeatFails == {} && !w.markFails
      requires k == KeyOf(LOST_SURFACE, LOST_CHECK, LOST_CANDIDATE)
      requires k in filed && filed[k] == Filed("sf", "headers", "missing-hsts")
      modifies this, wire
      ensures status == Completed && k in observed && !observed[k]
    {
      ghost var was, start := filed, wire.sends;
      LostRunsOn(w);
      ScanPlan.ErrorRowRetires(w, was, k);
      LostLedgers(w, was);
      assert !Carries(w, false);
      hide Loses, Smooth, FateOf, Plan, Table, Seen, Offers, KeyOf, Examined;
      status := Run(None, listing);
      Retires(None, was, start, k);
    }
  }
}
