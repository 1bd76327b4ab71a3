/** What the bridge promises over whole runs: every interleaving of the read
    thread, any number of callers, a second process, and crashes. */
module BridgeTheorems {
  import opened Options
  import opened HaltLog
  import opened BridgeState
  import opened Bridge
  import opened BridgeProofs

  ghost predicate NoCrash(aa: seq<Action>, i: nat, k: nat)
    requires k <= |aa|
  {
    forall j :: i <= j < k ==> !aa[j].Crash?
  }

  /** Caller `t` takes the step it is at. */
  predicate StepsAt(s: System, a: Action, t: nat) {
    a.Step? && a.t == t && t in s.threads
  }

  // ---- DENY-ALL and the generation token --------------------------------

  /** Any state but "waiting", and any epoch but 0, is backed by the connection
      the read thread is serving. */
  lemma DenyAllWithoutConnection(ss: seq<System>, aa: seq<Action>, k: nat)
    requires IsRun(ss, aa) && k < |ss|
    requires ss[k].sh.state != Waiting || ss[k].sh.epoch != 0
    ensures !ss[k].reader.Accepting? && ss[k].sh.conn == Some(ss[k].reader.gen)
  {
    Reachable(ss, aa, k);
  }

  /** The guard in `_reset` never skips: the teardown of a connection always
      finds its own generation current, and always resets. */
  lemma TeardownAlwaysResets(ss: seq<System>, aa: seq<Action>, k: nat)
    requires IsRun(ss, aa) && k < |aa| && aa[k] == ResetConn
    ensures ss[k + 1].sh.state == Waiting && ss[k + 1].sh.epoch == 0 && ss[k + 1].sh.conn.None?
    ensures ss[k + 1].sh.generation == ss[k].sh.generation + 1
    ensures ss[k + 1].sh.pending == {} && ss[k].sh.pending <= ss[k + 1].sh.woken
  {
    Reachable(ss, aa, k);
    assert StepAt(ss, aa, k);
  }

  /** The `_conn is None` half of every commit guard is redundant: a caller that
      reached its commit with a current generation has a live connection. */
  lemma TokenImpliesConnection(ss: seq<System>, aa: seq<Action>, k: nat, t: nat)
    requires IsRun(ss, aa) && k < |ss| && t in ss[k].threads
    requires ss[k].threads[t].pc.Commit? || ss[k].threads[t].pc.Deny?
    ensures StillMine(ss[k].sh, ss[k].threads[t].gen) <==> ss[k].threads[t].gen == ss[k].sh.generation
  {
    Reachable(ss, aa, k);
    assert TokenOk(ss[k].sh, ss[k].threads[t]);
  }

  lemma GenerationStep(s: System, a: Action)
    requires Inv(s) && Apply(s, a).Some? && !a.Crash?
    ensures var z := Apply(s, a).value;
      && s.sh.generation <= z.sh.generation
      && (s.sh.generation == z.sh.generation ==> s.sh.conn == z.sh.conn && !a.Accept? && !a.ResetConn?)
  {
    if a.Step? {
      assert TokenOk(s.sh, s.threads[a.t]);
      CallerToken(s, a.t, s.threads[a.t], a.choice);
    } else {
      ReaderStep(s, a);
    }
  }

  /** Two equal generations in one process life enclose no accept and no reset. */
  lemma {:induction false} SameGeneration(ss: seq<System>, aa: seq<Action>, i: nat, k: nat)
    requires IsRun(ss, aa) && i <= k < |ss| && NoCrash(aa, i, k)
    ensures ss[i].sh.generation <= ss[k].sh.generation
    ensures ss[i].sh.generation == ss[k].sh.generation ==>
              ss[i].sh.conn == ss[k].sh.conn
              && forall j :: i <= j < k ==> !aa[j].Accept? && !aa[j].ResetConn?
    decreases k - i
  {
    if i < k {
      SameGeneration(ss, aa, i, k - 1);
      Reachable(ss, aa, k - 1);
      assert StepAt(ss, aa, k - 1);
      GenerationStep(ss[k - 1], aa[k - 1]);
    }
  }

  predicate TakesToken(s: System, a: Action, t: nat) {
    StepsAt(s, a, t) && s.threads[t].pc.TakeGen?
  }

  /** Once taken, a caller's token and its kind stay what they were. */
  lemma {:induction false} TokenKept(ss: seq<System>, aa: seq<Action>, i: nat, k: nat, t: nat)
    requires IsRun(ss, aa) && i < k < |ss| && TakesToken(ss[i], aa[i], t)
    requires NoCrash(aa, i, k)
    requires forall j :: i < j < k ==> !TakesToken(ss[j], aa[j], t)
    ensures t in ss[k].threads && ss[k].threads[t].gen == ss[i].sh.generation
    decreases k
  {
    assert StepAt(ss, aa, i);
    if i + 1 < k {
      TokenKept(ss, aa, i, k - 1, t);
      assert StepAt(ss, aa, k - 1);
      assert !TakesToken(ss[k - 1], aa[k - 1], t);
    }
  }

  /** Caller `t` writes `state` or `epoch` from behind the commit guard. */
  predicate Commits(s: System, a: Action, t: nat) {
    && StepsAt(s, a, t)
    && (s.threads[t].pc.Commit? || s.threads[t].pc.Deny?)
    && StillMine(s.sh, s.threads[t].gen)
  }

  /** A commit that lands does so on the connection its token was taken on, with
      no disconnect and no reconnect in between. */
  lemma CommitOnSameConnection(ss: seq<System>, aa: seq<Action>, i: nat, k: nat, t: nat)
    requires IsRun(ss, aa) && i < k < |aa|
    requires TakesToken(ss[i], aa[i], t) && Commits(ss[k], aa[k], t) && NoCrash(aa, i, k)
    requires forall j :: i < j < k ==> !TakesToken(ss[j], aa[j], t)
    ensures ss[k].sh.conn.Some? && ss[i].sh.conn == ss[k].sh.conn
    ensures forall j :: i <= j < k ==> !aa[j].Accept? && !aa[j].ResetConn?
  {
    TokenKept(ss, aa, i, k, t);
    SameGeneration(ss, aa, i, k);
  }

  // ---- the durable halt --------------------------------------------------

  predicate MidResume(pc: Pc) {
    pc.ResumeDisarm? || pc.ResumeUnlink?
  }

  /** The sentinel is on disk and nobody is on the way to unlinking it. */
  ghost predicate Stopped(s: System) {
    && s.disk.sentinel && s.elsewhere != ResumeWrote
    && forall t :: t in s.threads ==> !MidResume(s.threads[t].pc)
  }

  /** A resume, ours or another process's, records its row. */
  predicate RecordsResume(s: System, a: Action) {
    a.OtherResumeRow?
    || (a.Step? && a.t in s.threads && s.threads[a.t].pc.ResumeInsert? && a.choice.At?)
  }

  /** `OperatorHalt.halt` puts the sentinel on disk, whether or not it goes on to
      raise. */
  predicate HaltWrites(s: System, a: Action) {
    || (a.Step? && a.t in s.threads && s.threads[a.t].pc.HaltSentinel? && !a.choice.Fails?)
    || a.OtherHaltFile?
  }

  /** A resume under the other lock is between its row and its unlink. */
  ghost predicate Crossed(s: System, a: Action) {
    if a.Step? then s.elsewhere == ResumeWrote
    else exists t :: t in s.threads && MidResume(s.threads[t].pc)
  }

  ghost predicate HaltLands(s: System, a: Action) {
    HaltWrites(s, a) && !Crossed(s, a)
  }

  /** A halt's sentinel leaves nobody on the way to unlinking it exactly when no
      resume of the other process is under way. */
  lemma HaltStops(s: System, a: Action)
    requires Inv(s) && Apply(s, a).Some? && HaltWrites(s, a)
    ensures Stopped(Apply(s, a).value) <==> !Crossed(s, a)
  {
    var z := Apply(s, a).value;
    if a.Step? {
      forall u | u in s.threads && u != a.t ensures !MidResume(s.threads[u].pc) {
        assert LockOk(s.lock, a.t, s.threads[a.t]) && LockOk(s.lock, u, s.threads[u]);
      }
    } else if t :| t in s.threads && MidResume(s.threads[t].pc) {
      assert MidResume(z.threads[t].pc);
    }
  }

  lemma StoppedStep(s: System, a: Action)
    requires Stopped(s) && Apply(s, a).Some? && !RecordsResume(s, a)
    ensures Stopped(Apply(s, a).value)
  {
    if a.Step? {
      assert !MidResume(s.threads[a.t].pc);
    }
  }

  ghost predicate NoResume(ss: seq<System>, aa: seq<Action>, i: nat, k: nat)
    requires i <= k <= |aa| < |ss|
  {
    forall j :: i <= j < k ==> !RecordsResume(ss[j], aa[j])
  }

  /** A halt that landed stands, through disconnects, hellos, re-configures and
      crashes at any point, until a resume records its row. */
  lemma {:induction false} HaltStands(ss: seq<System>, aa: seq<Action>, i: nat, k: nat)
    requires IsRun(ss, aa) && i < k < |ss| && HaltLands(ss[i], aa[i]) && NoResume(ss, aa, i + 1, k)
    ensures Stopped(ss[k])
    decreases k
  {
    assert StepAt(ss, aa, k - 1);
    if i + 1 == k {
      Reachable(ss, aa, i);
      HaltStops(ss[i], aa[i]);
    } else {
      HaltStands(ss, aa, i, k - 1);
      StoppedStep(ss[k - 1], aa[k - 1]);
    }
  }

  predicate Refused(th: Thread) {
    th.pc.CheckArmed? || th.pc.CheckFile? || th.pc.Failed?
  }

  lemma RefusedStep(s: System, a: Action, t: nat)
    requires Stopped(s) && Apply(s, a).Some? && !(a.Begin? && a.t == t)
    requires RefusedIn(s, t)
    ensures RefusedIn(Apply(s, a).value, t)
  {
  }

  lemma BeginsRefused(s: System, t: nat)
    requires Apply(s, Begin(t, Send(true))).Some?
    ensures RefusedIn(Apply(s, Begin(t, Send(true))).value, t)
  {
  }

  ghost predicate RefusedIn(s: System, t: nat) {
    t in s.threads ==> Refused(s.threads[t]) && s.threads[t].kind == Send(true)
  }

  /** Every `send` that begins after the sentinel landed, with local enforcement,
      gets no further than the check that refuses it: it registers no id and
      writes no frame. */
  lemma {:induction false} HaltedSendsNothing(
      ss: seq<System>, aa: seq<Action>, i: nat, j: nat, k: nat, t: nat)
    requires IsRun(ss, aa) && i < j < k < |ss|
    requires HaltLands(ss[i], aa[i]) && NoResume(ss, aa, i + 1, k)
    requires aa[j] == Begin(t, Send(true))
    requires forall m :: j < m < k ==> !(aa[m].Begin? && aa[m].t == t)
    ensures RefusedIn(ss[k], t)
    decreases k
  {
    assert StepAt(ss, aa, k - 1);
    if j + 1 < k {
      HaltedSendsNothing(ss, aa, i, j, k - 1, t);
      HaltStands(ss, aa, i, k - 1);
      RefusedStep(ss[k - 1], aa[k - 1], t);
    } else {
      BeginsRefused(ss[k - 1], t);
    }
  }

  // ---- leaving "halted" ----------------------------------------------------

  /** Exactly the steps that can take `state` out of "halted". */
  predicate LeavesHalted(s: System, a: Action) {
    || a.ResetConn? || a.Crash? || a == RecvHello(true)
    || (a.Step? && Commits(s, a, a.t)
        && (s.threads[a.t].pc.Deny?
            || (s.threads[a.t].pc.Commit? && s.threads[a.t].kind.Resume?)))
  }

  lemma OtherLeaves(s: System, a: Action)
    requires Apply(s, a).Some? && !a.Step? && Inv(s) && s.sh.state == Halted
    ensures Apply(s, a).value.sh.state != Halted <==> LeavesHalted(s, a)
  {
  }

  lemma CallerLeaves(s: System, a: Action)
    requires Apply(s, a).Some? && a.Step? && Inv(s) && s.sh.state == Halted
    ensures Apply(s, a).value.sh.state != Halted <==> LeavesHalted(s, a)
  {
  }

  /** A configure acknowledgement never lifts a halt: of the commits, only a
      resume's and a denied configure's do. */
  lemma OnlyTheseLeaveHalted(ss: seq<System>, aa: seq<Action>, k: nat)
    requires IsRun(ss, aa) && k < |aa| && ss[k].sh.state == Halted
    ensures ss[k + 1].sh.state != Halted <==> LeavesHalted(ss[k], aa[k])
  {
    Reachable(ss, aa, k);
    assert StepAt(ss, aa, k);
    hide Apply, Inv, LeavesHalted;
    if aa[k].Step? {
      CallerLeaves(ss[k], aa[k]);
    } else {
      OtherLeaves(ss[k], aa[k]);
    }
  }

  /** `aa` takes `s` to `z`. */
  predicate Leads(s: System, aa: seq<Action>, z: System)
    decreases |aa|
  {
    if aa == [] then s == z
    else Apply(s, aa[0]).Some? && Leads(Apply(s, aa[0]).value, aa[1..], z)
  }

  lemma {:induction false} LeadsThrough(s: System, aa: seq<Action>, m: System, bb: seq<Action>, z: System)
    requires Leads(s, aa, m) && Leads(m, bb, z)
    ensures Leads(s, aa + bb, z)
    decreases |aa|
  {
    if aa == [] {
      assert aa + bb == bb;
    } else {
      assert (aa + bb)[1..] == aa[1..] + bb;
      LeadsThrough(Apply(s, aa[0]).value, aa[1..], m, bb, z);
    }
  }

  /** Caller `t` is at `pc` of its call. */
  predicate CallAt(s: System, t: nat, kind: Kind, pc: Pc, gen: nat, rid: int) {
    t in s.threads && s.threads[t] == Thread(kind, pc, gen, rid)
  }

  /** A call that waits for its reply. */
  predicate Requests(kind: Kind) {
    kind.Configure? || kind.Identity? || kind.Send?
  }

  /** One whole `configure` call with nothing interleaved but its reply. */
  function Exchange(t: nat, f: Frame): seq<Action> {
    var p := Step(t, Plain);
    [Begin(t, Configure), p, p] + [p, p, p] + [RecvReply(f), SetEvent, p, p] + [p, p]
  }

  lemma Opened(s: System, t: nat) returns (z: System)
    requires s.sh.state != Waiting && t !in s.threads
    ensures Leads(s, [Begin(t, Configure), Step(t, Plain), Step(t, Plain)], z)
    ensures z == s.(threads := z.threads) && z.threads.Keys == s.threads.Keys + {t}
    ensures CallAt(z, t, Configure, Register, s.sh.generation, 0)
  {
    var p := Step(t, Plain);
    var a := Apply(s, Begin(t, Configure)).value;
    var b := Apply(a, p).value;
    z := Apply(b, p).value;
    assert Leads(b, [p], z);
    assert Leads(a, [p, p], z);
  }

  lemma Asked(s: System, t: nat, kind: Kind, gen: nat) returns (z: System)
    requires s.sh.conn.Some? && CallAt(s, t, kind, Register, gen, 0) && Requests(kind)
    ensures var p := Step(t, Plain); Leads(s, [p, p, p], z)
    ensures z == s.(threads := z.threads, sh := RegisterRegion(s.sh))
    ensures z.threads.Keys == s.threads.Keys && CallAt(z, t, kind, Await, gen, s.sh.nextId + 1)
  {
    var p := Step(t, Plain);
    var a := Apply(s, p).value;
    var b := Apply(a, p).value;
    z := Apply(b, p).value;
    assert Leads(b, [p], z);
    assert Leads(a, [p, p], z);
  }

  lemma Replied(s: System, t: nat, kind: Kind, gen: nat, f: Frame) returns (z: System)
    requires s.reader.Serving? && CallAt(s, t, kind, Await, gen, s.sh.nextId)
    requires s.sh.nextId in s.sh.pending && f.id == Some(s.sh.nextId)
    ensures var p := Step(t, Plain); Leads(s, [RecvReply(f), SetEvent, p, p], z)
    ensures z == s.(threads := z.threads,
      sh := CollectRegion(WakeRegion(DeliverRegion(s.sh, f), s.sh.nextId), s.sh.nextId).0)
    ensures z.threads.Keys == s.threads.Keys && CallAt(z, t, kind, Decide(f), gen, s.sh.nextId)
  {
    var p := Step(t, Plain);
    var a := Apply(s, RecvReply(f)).value;
    var woken := Apply(a, SetEvent).value;
    var b := Apply(woken, p).value;
    z := Apply(b, p).value;
    assert Leads(b, [p], z);
    assert Leads(woken, [p, p], z);
    assert Leads(a, [SetEvent, p, p], z);
  }

  lemma Settled(s: System, t: nat, f: Frame) returns (z: System)
    requires s.sh.conn.Some? && CallAt(s, t, Configure, Decide(f), s.sh.generation, s.sh.nextId)
    requires f.t == ErrorFrame(true) || (f.t.ConfiguredFrame? && f.epoch.Epoch?)
    ensures var p := Step(t, Plain); Leads(s, [p, p], z)
    ensures z == s.(threads := z.threads,
      sh := if f.t.ErrorFrame? then DenyRegion(s.sh, s.sh.generation) else CommitConfigure(s.sh, f.epoch.value))
    ensures z.threads.Keys == s.threads.Keys
  {
    var p := Step(t, Plain);
    var a := Apply(s, p).value;
    z := Apply(a, p).value;
    assert Leads(a, [p], z);
  }

  lemma Answered(s: System, t: nat, f: Frame) returns (z: System)
    requires s.reader.Serving? && s.sh.conn.Some? && s.sh.state != Waiting && t !in s.threads
    requires f.id == Some(s.sh.nextId + 1) && (f.t == ErrorFrame(true) || (f.t.ConfiguredFrame? && f.epoch.Epoch?))
    ensures Leads(s, Exchange(t, f), z)
    ensures z.reader == s.reader && z.sh.conn == s.sh.conn && z.threads.Keys == s.threads.Keys + {t}
    ensures z.sh.nextId == s.sh.nextId + 1
    ensures z.sh.state == (if f.t.ErrorFrame? then Connected else if s.sh.state == Halted then Halted else Configured)
  {
    var p := Step(t, Plain);
    var a := Opened(s, t);
    var b := Asked(a, t, Configure, s.sh.generation);
    var c := Replied(b, t, Configure, s.sh.generation, f);
    z := Settled(c, t, f);
    LeadsThrough(s, [Begin(t, Configure), p, p], a, [p, p, p], b);
    LeadsThrough(s, [Begin(t, Configure), p, p] + [p, p, p], b, [RecvReply(f), SetEvent, p, p], c);
    LeadsThrough(s, [Begin(t, Configure), p, p] + [p, p, p] + [RecvReply(f), SetEvent, p, p], c, [p, p], z);
  }

  /** "Only resume() does that" holds of the durable halt and not of this field:
      a refused configure takes an auto-halted bridge to "connected", and the next
      accepted one to "configured", with no disconnect, hello or resume between. */
  lemma ReArmedWithoutResume(s: System) returns (z: System)
    requires s.reader.Serving? && s.sh.conn.Some? && s.sh.state == Halted && s.threads == map[]
    ensures Leads(s,
      Exchange(0, Frame(Some(s.sh.nextId + 1), ErrorFrame(true), NoEpoch))
      + Exchange(1, Frame(Some(s.sh.nextId + 2), ConfiguredFrame, Epoch(7))), z)
    ensures z.sh.state == Configured
  {
    var no := Frame(Some(s.sh.nextId + 1), ErrorFrame(true), NoEpoch);
    var yes := Frame(Some(s.sh.nextId + 2), ConfiguredFrame, Epoch(7));
    var m := Answered(s, 0, no);
    z := Answered(m, 1, yes);
    LeadsThrough(s, Exchange(0, no), m, Exchange(1, yes), z);
  }

  // ---- two processes ----

  /** No resume records its row along the way. */
  ghost predicate Quiet(s: System, aa: seq<Action>)
    decreases |aa|
  {
    aa != [] ==> !RecordsResume(s, aa[0]) && (Apply(s, aa[0]).Some? ==> Quiet(Apply(s, aa[0]).value, aa[1..]))
  }

  lemma {:induction false} StoppedLeads(s: System, aa: seq<Action>, z: System)
    requires Stopped(s) && Leads(s, aa, z) && Quiet(s, aa)
    ensures Stopped(z)
    decreases |aa|
  {
    hide Apply, Stopped, RecordsResume;
    if aa != [] {
      StoppedStep(s, aa[0]);
      StoppedLeads(Apply(s, aa[0]).value, aa[1..], z);
    }
  }

  /** The sentinel outlasts everything but a resume. */
  ghost predicate Survives(s: System) {
    forall bb, z {:trigger Leads(s, bb, z)} :: Leads(s, bb, z) && Quiet(s, bb) ==> z.disk.sentinel
  }

  /** A resume that is past its row has only its unlink left to do. */
  lemma Unlinks(s: System) returns (aa: seq<Action>, z: System)
    requires s.elsewhere == ResumeWrote || exists t :: t in s.threads && MidResume(s.threads[t].pc)
    ensures Leads(s, aa, z) && Quiet(s, aa) && !z.disk.sentinel
  {
    if s.elsewhere == ResumeWrote {
      z := Apply(s, OtherUnlink).value;
      aa := [OtherUnlink];
    } else {
      var t :| t in s.threads && MidResume(s.threads[t].pc);
      var p := Step(t, Plain);
      var m := Apply(s, p).value;
      if s.threads[t].pc.ResumeUnlink? {
        aa, z := [p], m;
      } else {
        z := Apply(m, p).value;
        aa := [p, p];
        assert Leads(m, [p], z) && Quiet(m, [p]);
      }
    }
  }

  /** A halt's sentinel stands in every continuation that records no resume exactly
      when it did not cross a resume of the other process. */
  lemma HaltStandsExactlyWhen(ss: seq<System>, aa: seq<Action>, i: nat)
    requires IsRun(ss, aa) && i < |aa| && HaltWrites(ss[i], aa[i])
    ensures !Crossed(ss[i], aa[i]) <==> Survives(ss[i + 1])
  {
    Reachable(ss, aa, i);
    assert StepAt(ss, aa, i);
    HaltStops(ss[i], aa[i]);
    var s := ss[i + 1];
    if Crossed(ss[i], aa[i]) {
      StillCrossed(ss[i], aa[i]);
      var bb, z := Unlinks(s);
      assert Leads(s, bb, z) && Quiet(s, bb) && !z.disk.sentinel;
    } else {
      forall bb, z | Leads(s, bb, z) && Quiet(s, bb) ensures z.disk.sentinel {
        StoppedLeads(s, bb, z);
      }
    }
  }

  lemma StillCrossed(s: System, a: Action)
    requires Apply(s, a).Some? && HaltWrites(s, a) && Crossed(s, a)
    ensures var z := Apply(s, a).value;
      z.elsewhere == ResumeWrote || exists t :: t in z.threads && MidResume(z.threads[t].pc)
  {
    if !a.Step? {
      var t :| t in s.threads && MidResume(s.threads[t].pc);
      assert t in Apply(s, a).value.threads;
    }
  }

  lemma HaltBegins(s: System) returns (z: System)
    requires s.disk == Disk(true, [HaltRow(1)]) && s.elsewhere.Idle? && s.lock.None? && 0 !in s.threads
    ensures Leads(s, [OtherResumeRow(2), Begin(0, Halt), Step(0, Plain)], z)
    ensures 0 in z.threads && z.threads[0].pc.HaltSentinel? && z.elsewhere.ResumeWrote?
    ensures z.disk == Disk(true, [HaltRow(1)] + [ResumeRow(2)])
  {
    var a := Apply(s, OtherResumeRow(2)).value;
    var b := Apply(a, Begin(0, Halt)).value;
    z := Apply(b, Step(0, Plain)).value;
    assert Leads(b, [Step(0, Plain)], z);
    assert Leads(a, [Begin(0, Halt), Step(0, Plain)], z);
  }

  lemma HaltUnlinked(c: System) returns (z: System)
    requires 0 in c.threads && c.threads[0].pc.HaltSentinel? && c.elsewhere.ResumeWrote?
    ensures Leads(c, [Step(0, Plain), OtherUnlink, Crash], z)
    ensures z.elsewhere.Idle? && z.disk == Disk(false, c.disk.log) && z.armed == ArmedAtBoot(c.disk.log)
  {
    var d := Apply(c, Step(0, Plain)).value;
    var e := Apply(d, OtherUnlink).value;
    z := Apply(e, Crash).value;
    assert Leads(e, [Crash], z);
    assert Leads(d, [OtherUnlink, Crash], z);
  }

  /** Another process's lock is not ours: a halt whose sentinel lands between a
      foreign resume's row and its unlink, in a process that then dies before its
      own row, leaves no trace at all. */
  lemma HaltLostBetweenProcesses(s: System) returns (z: System)
    requires s.disk == Disk(true, [HaltRow(1)]) && s.elsewhere.Idle? && s.lock.None? && 0 !in s.threads
    ensures Leads(s, [OtherResumeRow(2), Begin(0, Halt), Step(0, Plain)] + [Step(0, Plain), OtherUnlink, Crash], z)
    ensures !z.armed && !z.disk.sentinel && z.elsewhere.Idle?
  {
    hide Apply, Leads;
    var c := HaltBegins(s);
    z := HaltUnlinked(c);
    LeadsThrough(s, [OtherResumeRow(2), Begin(0, Halt), Step(0, Plain)], c, [Step(0, Plain), OtherUnlink, Crash], z);
    ResumeSurvivesRestart([HaltRow(1)], 2);
  }

  lemma LeadsInTwo(s: System, a: Action, m: System, b: Action, z: System)
    requires Apply(s, a) == Some(m) && Apply(m, b) == Some(z)
    ensures Leads(s, [a, b], z)
  {
    hide Apply;
    assert [a, b][1..] == [b] && [b][1..] == [];
    assert Leads(m, [b], z);
  }

  lemma WritesElsewhere(s: System, ts: int)
    requires s.elsewhere.Idle?
    ensures Apply(s, OtherHaltFile) == Some(s.(elsewhere := HaltWrote, disk := s.disk.(sentinel := true)))
    ensures Apply(s, OtherResumeRow(ts))
      == Some(s.(elsewhere := ResumeWrote, disk := s.disk.(log := s.disk.log + [ResumeRow(ts)])))
  {
  }

  lemma CrashesElsewhere(s: System, at: Elsewhere)
    requires s.elsewhere.Idle? && !at.Idle?
    ensures Apply(s.(elsewhere := at), OtherCrash) == Some(s)
  {
    assert s.(elsewhere := Idle) == s;
  }

  /** A second process that dies half-way leaves what it had written, and never less
      of a halt: the sentinel without a row, or the row of a resume under a sentinel
      that still stands. */
  lemma DiesHalfWay(s: System, ts: int)
    requires s.elsewhere.Idle?
    ensures Leads(s, [OtherHaltFile, OtherCrash], s.(disk := s.disk.(sentinel := true)))
    ensures Leads(s, [OtherResumeRow(ts), OtherCrash], s.(disk := s.disk.(log := s.disk.log + [ResumeRow(ts)])))
  {
    hide Leads, Apply;
    var halted := s.(disk := s.disk.(sentinel := true));
    var resumed := s.(disk := s.disk.(log := s.disk.log + [ResumeRow(ts)]));
    WritesElsewhere(s, ts);
    CrashesElsewhere(halted, HaltWrote);
    CrashesElsewhere(resumed, ResumeWrote);
    LeadsInTwo(s, OtherHaltFile, halted.(elsewhere := HaltWrote), OtherCrash, halted);
    LeadsInTwo(s, OtherResumeRow(ts), resumed.(elsewhere := ResumeWrote), OtherCrash, resumed);
  }

  // ---- from boot ----

  /** What actions lead to is the end of a run. */
  lemma {:induction false} LeadsIsRun(s: System, aa: seq<Action>, z: System) returns (ss: seq<System>)
    requires Leads(s, aa, z)
    ensures |ss| == |aa| + 1 && ss[0] == s && ss[|aa|] == z
    ensures forall i :: 0 <= i < |aa| ==> StepAt(ss, aa, i)
    decreases |aa|
  {
    hide Apply;
    if aa == [] {
      ss := [s];
    } else {
      var rest := LeadsIsRun(Apply(s, aa[0]).value, aa[1..], z);
      ss := [s] + rest;
      forall i | 0 <= i < |aa| ensures StepAt(ss, aa, i) {
        if i > 0 {
          assert StepAt(rest, aa[1..], i - 1);
        }
      }
    }
  }

  /** A first peer, and the hello it opens with. */
  lemma Greeted(disk: Disk) returns (z: System)
    requires !ArmedAtBoot(disk.log) && !disk.sentinel
    ensures Leads(Boot(disk, Idle), [Accept, RecvHello(true), ReassertArmed, ReassertFile(false)], z)
    ensures z.reader == Serving(1) && z.sh.conn == Some(1) && z.sh.state == Connected && z.threads == map[]
    ensures z.lock.None? && z.elsewhere.Idle? && z.disk == disk
  {
    var a := Apply(Boot(disk, Idle), Accept).value;
    var b := Apply(a, RecvHello(true)).value;
    var c := Apply(b, ReassertArmed).value;
    z := Apply(c, ReassertFile(false)).value;
    assert Leads(c, [ReassertFile(false)], z);
    assert Leads(b, [ReassertArmed, ReassertFile(false)], z);
    assert Leads(a, [RecvHello(true), ReassertArmed, ReassertFile(false)], z);
  }

  /** The target's distress halts the bridge of that peer. */
  lemma HaltedByTarget(disk: Disk) returns (h: System)
    requires !ArmedAtBoot(disk.log) && !disk.sentinel
    ensures Leads(Boot(disk, Idle), [Accept, RecvHello(true), ReassertArmed, ReassertFile(false), RecvHalted(true)], h)
    ensures h.reader.Serving? && h.sh.conn.Some? && h.sh.state == Halted && h.threads == map[]
  {
    var hello := [Accept, RecvHello(true), ReassertArmed, ReassertFile(false)];
    var g := Greeted(disk);
    h := Apply(g, RecvHalted(true)).value;
    assert Leads(g, [RecvHalted(true)], h);
    LeadsThrough(Boot(disk, Idle), hello, g, [RecvHalted(true)], h);
  }

  /** Nothing that is documented to leave "halted" on purpose. */
  predicate OfConfigure(a: Action) {
    a.RecvReply? || a.SetEvent? || a.Step? || (a.Begin? && a.kind.Configure?)
  }

  lemma ExchangeConfigures(t: nat, f: Frame)
    ensures forall a <- Exchange(t, f) :: OfConfigure(a)
  {
  }

  /** A run that ends re-armed with nothing but configures after the halt. */
  lemma ReArmedFromBoot(disk: Disk) returns (ss: seq<System>, aa: seq<Action>)
    requires !ArmedAtBoot(disk.log) && !disk.sentinel
    ensures IsRun(ss, aa) && ss[0] == Boot(disk, Idle) && |aa| > 5
    ensures ss[5].sh.state == Halted && ss[|aa|].sh.state == Configured
    ensures forall a <- aa[5..] :: OfConfigure(a)
  {
    var s := Boot(disk, Idle);
    BootIsBoot(disk);
    var first := [Accept, RecvHello(true), ReassertArmed, ReassertFile(false), RecvHalted(true)];
    var h := HaltedByTarget(disk);
    var no := Frame(Some(h.sh.nextId + 1), ErrorFrame(true), NoEpoch);
    var yes := Frame(Some(h.sh.nextId + 2), ConfiguredFrame, Epoch(7));
    var z := ReArmedWithoutResume(h);
    ExchangeConfigures(0, no);
    ExchangeConfigures(1, yes);
    hide Apply, Boot, Exchange, OfConfigure, Leads;
    var rest := Exchange(0, no) + Exchange(1, yes);
    LeadsThrough(s, first, h, rest, z);
    aa := first + rest;
    ss := LeadsIsRun(s, aa, z);
    var firsts := LeadsIsRun(s, first, h);
    SameStart(ss, aa, firsts, first, 5);
    assert aa[5..] == rest && h != z;
  }

  lemma BootIsBoot(disk: Disk)
    ensures var s := Boot(disk, Idle); s.disk == disk && s.elsewhere == Idle && s.sh.state != Halted
  {
  }

  /** Two runs from one state by the same first actions agree as far as those go. */
  lemma {:induction false} SameStart(ss: seq<System>, aa: seq<Action>, tt: seq<System>, bb: seq<Action>, n: nat)
    requires |ss| == |aa| + 1 && |tt| == |bb| + 1 && bb <= aa && n <= |bb| && ss[0] == tt[0]
    requires forall i :: 0 <= i < |aa| ==> StepAt(ss, aa, i)
    requires forall i :: 0 <= i < |bb| ==> StepAt(tt, bb, i)
    ensures ss[n] == tt[n]
  {
    hide Apply;
    if n > 0 {
      SameStart(ss, aa, tt, bb, n - 1);
      assert StepAt(ss, aa, n - 1) && StepAt(tt, bb, n - 1);
    }
  }

  /** And one that ends with no trace of a halt that was written in it. */
  lemma HaltLostFromBoot() returns (ss: seq<System>, aa: seq<Action>)
    ensures IsRun(ss, aa) && |aa| == 6 && ss[0].disk == Disk(true, [HaltRow(1)])
    ensures HaltWrites(ss[3], aa[3]) && NoResume(ss, aa, 4, 6) && aa[5] == Crash
    ensures !ss[6].armed && !ss[6].disk.sentinel && ss[6].elsewhere.Idle?
  {
    var s := Boot(Disk(true, [HaltRow(1)]), Idle);
    var first := [OtherResumeRow(2), Begin(0, Halt), Step(0, Plain)];
    var z := HaltLostBetweenProcesses(s);
    var c := HaltBegins(s);
    aa := first + [Step(0, Plain), OtherUnlink, Crash];
    ss := LeadsIsRun(s, aa, z);
    var firsts := LeadsIsRun(s, first, c);
    SameStart(ss, aa, firsts, first, 3);
  }
}
