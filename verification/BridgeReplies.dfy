/** Which reply a `_request` returns, and when the re-asserted halt reaches the
    peer, over every run. */
module BridgeReplies {
  import opened Options
  import opened HaltLog
  import opened BridgeState
  import opened Bridge
  import opened BridgeProofs
  import opened BridgeTheorems

  // ---- reply correlation --------------------------------------------------

  predicate Registers(s: System, a: Action, t: nat) {
    StepsAt(s, a, t) && s.threads[t].pc.Register?
  }

  /** Caller `t` returns from `_request` with reply `f`. */
  predicate Returns(s: System, a: Action, t: nat, f: Frame) {
    && StepsAt(s, a, t) && s.threads[t].pc.Collect?
    && s.threads[t].rid in s.sh.replies && s.sh.replies[s.threads[t].rid] == f
  }

  /** The id is no longer awaited and holds no reply. */
  predicate Closed(sh: Shared, rid: int) {
    1 <= rid <= sh.nextId && rid !in sh.pending && rid !in sh.replies
  }

  lemma ClosedStep(s: System, a: Action, rid: int)
    requires Closed(s.sh, rid) && Apply(s, a).Some? && !a.Crash?
    ensures Closed(Apply(s, a).value.sh, rid)
  {
  }

  /** An id once closed is never answered again in that process. */
  lemma {:induction false} ClosedForGood(ss: seq<System>, aa: seq<Action>, i: nat, k: nat, rid: int)
    requires IsRun(ss, aa) && i <= k < |ss| && NoCrash(aa, i, k) && Closed(ss[i].sh, rid)
    ensures Closed(ss[k].sh, rid)
    decreases k - i
  {
    if i < k {
      ClosedForGood(ss, aa, i, k - 1, rid);
      assert StepAt(ss, aa, k - 1);
      ClosedStep(ss[k - 1], aa[k - 1], rid);
    }
  }

  /** An id no longer awaited is not awaited again. */
  lemma {:induction false} NotAwaitedAgain(ss: seq<System>, aa: seq<Action>, i: nat, k: nat, rid: int)
    requires IsRun(ss, aa) && i <= k < |ss| && NoCrash(aa, i, k)
    requires rid <= ss[i].sh.nextId && rid !in ss[i].sh.pending
    ensures rid <= ss[k].sh.nextId && rid !in ss[k].sh.pending
    decreases k - i
  {
    if i < k {
      NotAwaitedAgain(ss, aa, i, k - 1, rid);
      assert StepAt(ss, aa, k - 1);
    }
  }

  /** A caller that gave up, or has been answered, is done with its id: a reply to it
      that comes later changes nothing. */
  lemma LateReplyIgnored(ss: seq<System>, aa: seq<Action>, i: nat, k: nat, t: nat, c: Choice, f: Frame)
    requires IsRun(ss, aa) && i < k < |aa| && NoCrash(aa, i, k)
    requires aa[i] == Step(t, c) && t in ss[i].threads && (ss[i].threads[t].pc.GiveUp? || ss[i].threads[t].pc.Collect?)
    requires aa[k] == RecvReply(f) && f.id == Some(ss[i].threads[t].rid)
    ensures ss[k + 1] == ss[k]
  {
    Reachable(ss, aa, i);
    assert StepAt(ss, aa, i) && StepAt(ss, aa, k);
    NotAwaitedAgain(ss, aa, i + 1, k, ss[i].threads[t].rid);
  }

  /** A disconnect fails every waiter: nothing registered before a reset is ever
      returned after it. */
  lemma ResetFailsWaiters(ss: seq<System>, aa: seq<Action>, m: nat, k: nat, t: nat, f: Frame)
    requires IsRun(ss, aa) && m < k < |aa| && NoCrash(aa, m, k)
    requires aa[m] == ResetConn && Returns(ss[k], aa[k], t, f)
    ensures ss[k].threads[t].rid > ss[m].sh.nextId
  {
    Reachable(ss, aa, m);
    Reachable(ss, aa, k);
    var rid := ss[k].threads[t].rid;
    if rid <= ss[m].sh.nextId {
      assert StepAt(ss, aa, m);
      assert Closed(ss[m + 1].sh, rid);
      ClosedForGood(ss, aa, m + 1, k, rid);
      assert false;
    }
  }

  /** No reply is collected twice. */
  lemma CollectedOnce(ss: seq<System>, aa: seq<Action>, i: nat, k: nat, t: nat, u: nat, f: Frame, g: Frame)
    requires IsRun(ss, aa) && i < k < |aa| && NoCrash(aa, i, k)
    requires Returns(ss[i], aa[i], t, f) && Returns(ss[k], aa[k], u, g)
    ensures ss[i].threads[t].rid != ss[k].threads[u].rid && f.id != g.id
  {
    Reachable(ss, aa, i);
    Reachable(ss, aa, k);
    var rid := ss[i].threads[t].rid;
    assert StepAt(ss, aa, i);
    assert Closed(ss[i + 1].sh, rid);
    ClosedForGood(ss, aa, i + 1, k, rid);
  }

  /** The reply held for `rid` was delivered by some step since `rid` had none. */
  lemma {:induction false} DeliveredSince(ss: seq<System>, aa: seq<Action>, i: nat, k: nat, rid: int) returns (d: nat)
    requires IsRun(ss, aa) && i < k < |ss| && NoCrash(aa, i, k)
    requires rid !in ss[i].sh.replies && rid in ss[k].sh.replies
    ensures i <= d < k && aa[d] == RecvReply(ss[k].sh.replies[rid]) && Wanted(ss[d].sh, ss[k].sh.replies[rid])
    ensures ss[k].sh.replies[rid].id == Some(rid)
    ensures forall j :: d < j <= k ==> rid in ss[j].sh.replies && ss[j].sh.replies[rid] == ss[k].sh.replies[rid]
    decreases k
  {
    Reachable(ss, aa, k);
    assert StepAt(ss, aa, k - 1);
    if aa[k - 1] == RecvReply(ss[k].sh.replies[rid]) && Wanted(ss[k - 1].sh, ss[k].sh.replies[rid]) {
      d := k - 1;
    } else {
      HeldBefore(ss[k - 1], aa[k - 1], rid);
      d := DeliveredSince(ss, aa, i, k - 1, rid);
    }
  }

  lemma HeldBefore(s: System, a: Action, rid: int)
    requires Apply(s, a).Some? && rid in Apply(s, a).value.sh.replies
    requires var f := Apply(s, a).value.sh.replies[rid];
      !(a == RecvReply(f) && Wanted(s.sh, f) && f.id == Some(rid))
    ensures rid in s.sh.replies && s.sh.replies[rid] == Apply(s, a).value.sh.replies[rid]
  {
  }

  /** A caller keeps the id it registered under. */
  lemma {:induction false} IdKept(ss: seq<System>, aa: seq<Action>, i: nat, k: nat, t: nat)
    requires IsRun(ss, aa) && i < k < |ss| && Registers(ss[i], aa[i], t) && NoCrash(aa, i, k)
    requires forall j :: i < j < k ==> !Registers(ss[j], aa[j], t)
    ensures t in ss[k].threads && ss[k].threads[t].rid == ss[i].sh.nextId + 1
    decreases k
  {
    assert StepAt(ss, aa, i);
    if i + 1 < k {
      IdKept(ss, aa, i, k - 1, t);
      assert StepAt(ss, aa, k - 1);
      assert !Registers(ss[k - 1], aa[k - 1], t);
    }
  }

  /** A `_request` that returns, returns the reply that names its own id, delivered
      after it registered, with no disconnect since it registered. */
  lemma ReplyIsOwn(ss: seq<System>, aa: seq<Action>, i: nat, k: nat, t: nat, f: Frame) returns (d: nat)
    requires IsRun(ss, aa) && i < k < |aa| && NoCrash(aa, i, k)
    requires Registers(ss[i], aa[i], t) && Returns(ss[k], aa[k], t, f)
    requires forall j :: i < j < k ==> !Registers(ss[j], aa[j], t)
    ensures f.id == Some(ss[i].sh.nextId + 1)
    ensures i < d < k && aa[d] == RecvReply(f)
    ensures forall j :: i <= j < k ==> aa[j] != ResetConn
  {
    Reachable(ss, aa, i);
    IdKept(ss, aa, i, k, t);
    assert StepAt(ss, aa, i);
    d := DeliveredSince(ss, aa, i, k, ss[i].sh.nextId + 1);
    forall m | i <= m < k ensures aa[m] != ResetConn {
      if aa[m] == ResetConn {
        ResetFailsWaiters(ss, aa, m, k, t, f);
        IdsGrow(ss, aa, i + 1, m);
      }
    }
  }

  lemma {:induction false} IdsGrow(ss: seq<System>, aa: seq<Action>, i: nat, k: nat)
    requires IsRun(ss, aa) && i <= k < |ss| && NoCrash(aa, i, k)
    ensures ss[i].sh.nextId <= ss[k].sh.nextId
    decreases k - i
  {
    if i < k {
      IdsGrow(ss, aa, i, k - 1);
      assert StepAt(ss, aa, k - 1);
    }
  }

  // ---- re-asserting a halt to a new peer -----------------------------------

  /** The halt frame of the hello received at `i` was written before step `k`. */
  ghost predicate Written(aa: seq<Action>, i: nat, k: nat)
    requires k <= |aa|
  {
    exists m :: i < m < k && aa[m] == ReassertWrite(true)
  }

  ghost predicate FailedToWrite(aa: seq<Action>, i: nat, k: nat)
    requires k <= |aa|
  {
    exists m :: i < m < k && aa[m] == ReassertWrite(false)
  }

  /** From `i` to `k` there is one hello, the one at `i`, on one connection. */
  ghost predicate OneHello(aa: seq<Action>, i: nat, k: nat)
    requires k <= |aa|
  {
    && i < k && aa[i] == RecvHello(true)
    && forall j :: i < j < k ==> aa[j] != RecvHello(true) && aa[j] != ResetConn && !aa[j].Crash?
  }

  /** The read thread is past the write: it commits the halt it wrote, reads frames
      again, or is tearing down a connection it wrote to. */
  ghost predicate PastWrite(s: System, failed: bool) {
    s.reader.HelloCommit? || s.reader.Serving? || s.reader.Waking? || (s.reader.Closing? && !failed)
  }

  lemma WriteStep(s: System, a: Action, written: bool, failed: bool)
    requires Stopped(s) && Apply(s, a).Some? && a != RecvHello(true) && a != ResetConn && !a.Crash?
    requires !s.reader.Accepting? && (written <==> PastWrite(s, failed)) && (failed ==> s.reader.Closing?)
    ensures var z, failed' := Apply(s, a).value, failed || a == ReassertWrite(false);
      && !z.reader.Accepting? && (failed' ==> z.reader.Closing?)
      && (written || a == ReassertWrite(true) <==> PastWrite(z, failed'))
  {
  }

  /** While a halt stands, the halt frame of a hello has been written exactly when
      the read thread is past writing it, at whatever step a caller's configure
      frame goes out, or any other step is taken. */
  lemma {:induction false} HaltWrittenExactlyWhen(ss: seq<System>, aa: seq<Action>, i: nat, k: nat)
    requires IsRun(ss, aa) && k < |ss| && OneHello(aa, i, k)
    requires Stopped(ss[i]) && NoResume(ss, aa, i, k)
    ensures Written(aa, i, k) <==> PastWrite(ss[k], FailedToWrite(aa, i, k))
    ensures FailedToWrite(aa, i, k) ==> ss[k].reader.Closing?
    ensures Stopped(ss[k]) && !ss[k].reader.Accepting?
    decreases k
  {
    assert StepAt(ss, aa, k - 1);
    if i + 1 < k {
      HaltWrittenExactlyWhen(ss, aa, i, k - 1);
      hide Apply, Stopped, PastWrite;
      StoppedStep(ss[k - 1], aa[k - 1]);
      WriteStep(ss[k - 1], aa[k - 1], Written(aa, i, k - 1), FailedToWrite(aa, i, k - 1));
      WrittenOnward(aa, i, k - 1);
    } else {
      StoppedStep(ss[i], aa[i]);
    }
  }

  lemma WrittenOnward(aa: seq<Action>, i: nat, k: nat)
    requires i < k < |aa|
    ensures Written(aa, i, k + 1) <==> Written(aa, i, k) || aa[k] == ReassertWrite(true)
    ensures FailedToWrite(aa, i, k + 1) <==> FailedToWrite(aa, i, k) || aa[k] == ReassertWrite(false)
  {
    if aa[k] == ReassertWrite(true) || aa[k] == ReassertWrite(false) {
      assert i < k < k + 1;
    }
    if Written(aa, i, k) {
      var m :| i < m < k && aa[m] == ReassertWrite(true);
      assert i < m < k + 1;
    }
    if FailedToWrite(aa, i, k) {
      var m :| i < m < k && aa[m] == ReassertWrite(false);
      assert i < m < k + 1;
    }
  }

  /** "So before any configure" is a guarantee about `on_hello` alone. A caller in
      another thread needs only `state`, which the hello's own locked region has
      already made "connected": its configure frame reaches the connection while
      the halt it should follow is still to be written. */
  lemma ConfigureOvertakesHalt(s: System) returns (z: System)
    requires s.reader.Serving? && s.sh.conn.Some? && s.disk.sentinel && 0 !in s.threads
    ensures var p := Step(0, Plain);
      Leads(s, [RecvHello(true)] + [Begin(0, Configure), p, p] + [p, p, p], z)
    ensures z.reader.HelloArmed? && z.sh.conn == s.sh.conn && z.disk.sentinel
    ensures 0 in z.threads && z.threads[0].pc.Await? && z.threads[0].kind.Configure?
  {
    var p := Step(0, Plain);
    var a := Apply(s, RecvHello(true)).value;
    var b := Opened(a, 0);
    z := Asked(b, 0, Configure, s.sh.generation);
    assert Leads(s, [RecvHello(true)], a);
    LeadsThrough(s, [RecvHello(true)], a, [Begin(0, Configure), p, p], b);
    LeadsThrough(s, [RecvHello(true)] + [Begin(0, Configure), p, p], b, [p, p, p], z);
  }

  /** A run in which a configure frame goes out under a standing halt that the peer
      has not been told of. */
  lemma OvertakenFromBoot(log: seq<Entry>) returns (ss: seq<System>, aa: seq<Action>)
    ensures IsRun(ss, aa) && ss[0] == Boot(Disk(true, log), Idle) && |aa| == 8
    ensures OneHello(aa, 1, 8) && Stopped(ss[1]) && NoResume(ss, aa, 1, 8)
    ensures 0 in ss[7].threads && ss[7].threads[0].pc.Write? && ss[7].threads[0].kind.Configure?
    ensures aa[7] == Step(0, Plain) && !Written(aa, 1, 7)
  {
    var p := Step(0, Plain);
    var s := Boot(Disk(true, log), Idle);
    var a := Apply(s, Accept).value;
    assert Leads(s, [Accept], a);
    var z := ConfigureOvertakesHalt(a);
    var asked := [RecvHello(true)] + [Begin(0, Configure), p, p];
    LeadsThrough(s, [Accept], a, asked + [p, p, p], z);
    aa := [Accept, RecvHello(true), Begin(0, Configure), p, p, p, p, p];
    assert [Accept] + (asked + [p, p, p]) == aa;
    ss := LeadsIsRun(s, aa, z);
    assert StepAt(ss, aa, 0);
    hide Apply, Leads;
    assert StepAt(ss, aa, 7);
    Writes(ss, aa);
  }

  /** Only `_send` hands a caller on to wait for its reply. */
  lemma Writes(ss: seq<System>, aa: seq<Action>)
    requires |ss| == 9 && |aa| == 8 && aa[7] == Step(0, Plain) && StepAt(ss, aa, 7)
    requires 0 in ss[8].threads && ss[8].threads[0].pc.Await? && ss[8].threads[0].kind.Configure?
    ensures 0 in ss[7].threads && ss[7].threads[0].pc.Write? && ss[7].threads[0].kind.Configure?
  {
  }
}
