/** When a send goes out, what a caller's success means, and each call from its
    beginning to its end, over every run. */
module BridgeSends {
  import opened Options
  import opened HaltLog
  import opened BridgeState
  import opened Bridge
  import opened BridgeProofs
  import opened BridgeTheorems
  import opened BridgeReplies

  // ---- local enforcement ----------------------------------------------------

  predicate Own(a: Action, t: nat) {
    a.Step? && a.t == t
  }

  /** The steps caller `t` takes after action `j` and before `k`. */
  function StepsOf(aa: seq<Action>, j: nat, k: nat, t: nat): (v: seq<nat>)
    requires k <= |aa|
    ensures forall i :: 0 <= i < |v| ==> j < v[i] < k && Own(aa[v[i]], t)
  {
    if k <= j + 1 then []
    else
      var before := StepsOf(aa, j, k - 1, t);
      if Own(aa[k - 1], t) then before + [k - 1] else before
  }

  /** What the `n`-th step after a send is called reads, and must find: no halt in
      memory, none on disk, and a configured bridge. */
  predicate Clear(s: System, a: Action, n: nat)
    requires a.Step?
  {
    if n == 0 then !s.armed
    else if n == 1 then !s.disk.sentinel && !a.choice.Fails?
    else s.sh.state == Configured
  }

  predicate AreSteps(ss: seq<System>, aa: seq<Action>, v: seq<nat>) {
    |aa| < |ss| && forall i :: 0 <= i < |v| ==> v[i] < |aa| && aa[v[i]].Step?
  }

  predicate Cleared(ss: seq<System>, aa: seq<Action>, v: seq<nat>, n: nat)
    requires AreSteps(ss, aa, v)
  {
    n <= |v| && forall i :: 0 <= i < n ==> Clear(ss[v[i]], aa[v[i]], i)
  }

  /** The caller has, or is about to have, an id of its own. */
  predicate GoesOn(th: Thread) {
    th.rid != 0 || th.pc.Register?
  }

  function CheckOf(n: nat): Pc {
    if n == 0 then CheckArmed else if n == 1 then CheckFile else CheckSendPhase
  }

  /** Where a send that was called with local enforcement is, by the steps it took. */
  predicate Checking(ss: seq<System>, aa: seq<Action>, th: Thread, v: seq<nat>)
    requires AreSteps(ss, aa, v)
  {
    && th.kind == Send(true)
    && (GoesOn(th) <==> Cleared(ss, aa, v, 3))
    && (!GoesOn(th) ==>
          if |v| < 3 && Cleared(ss, aa, v, |v|) then th.pc == CheckOf(|v|) else th.pc.Failed?)
  }

  /** One step of a send, by the check it is at. */
  lemma StepChecks(s: System, a: Action, t: nat)
    requires Own(a, t) && t in s.threads && Apply(s, a).Some? && s.threads[t].kind == Send(true)
    ensures t in Apply(s, a).value.threads
    ensures var th, next := s.threads[t], Apply(s, a).value.threads[t];
      && next.kind == Send(true)
      && !th.pc.Failed?
      && (GoesOn(th) ==> GoesOn(next))
      && (!GoesOn(th) && th.pc.CheckArmed? ==>
            next.rid == 0 && next.pc == if Clear(s, a, 0) then CheckFile else Failed)
      && (!GoesOn(th) && th.pc.CheckFile? ==>
            next.rid == 0 && next.pc == if Clear(s, a, 1) then CheckSendPhase else Failed)
      && (!GoesOn(th) && th.pc.CheckSendPhase? ==>
            next.rid == 0 && next.pc == if Clear(s, a, 2) then Register else Failed)
  {
  }

  lemma OwnCheck(ss: seq<System>, aa: seq<Action>, k: nat, t: nat, v: seq<nat>)
    requires k < |aa| < |ss| && StepAt(ss, aa, k) && Own(aa[k], t) && t in ss[k].threads
    requires AreSteps(ss, aa, v)
    requires Checking(ss, aa, ss[k].threads[t], v)
    ensures t in ss[k + 1].threads && Checking(ss, aa, ss[k + 1].threads[t], v + [k])
  {
    hide Apply, Clear;
    var w, n := v + [k], |v|;
    assert w[n] == k && forall i :: 0 <= i < n ==> w[i] == v[i];
    if n < 3 {
      assert Cleared(ss, aa, w, n + 1) <==> Cleared(ss, aa, v, n) && Clear(ss[k], aa[k], n);
    } else {
      assert Cleared(ss, aa, w, 3) <==> Cleared(ss, aa, v, 3);
    }
    StepChecks(ss[k], aa[k], t);
  }

  lemma OthersLeave(s: System, a: Action, t: nat)
    requires Apply(s, a).Some? && !Own(a, t) && !a.Crash? && t in s.threads
    ensures t in Apply(s, a).value.threads && Apply(s, a).value.threads[t] == s.threads[t]
  {
  }

  /** A send called with local enforcement goes on exactly when its first three
      steps find no halt in memory, no sentinel that can be seen or not be ruled
      out, and a configured bridge, in that order; when one of them does not, it has
      failed with no id and no frame. */
  lemma {:induction false} SendGoesOnExactlyWhen(ss: seq<System>, aa: seq<Action>, j: nat, k: nat, t: nat)
    requires IsRun(ss, aa) && j < k < |ss| && NoCrash(aa, j, k) && aa[j] == Begin(t, Send(true))
    ensures t in ss[k].threads && Checking(ss, aa, ss[k].threads[t], StepsOf(aa, j, k, t))
    decreases k
  {
    assert StepAt(ss, aa, k - 1);
    if j + 1 < k {
      SendGoesOnExactlyWhen(ss, aa, j, k - 1, t);
      hide Apply, Checking;
      if Own(aa[k - 1], t) {
        OwnCheck(ss, aa, k - 1, t, StepsOf(aa, j, k - 1, t));
      } else {
        OthersLeave(ss[k - 1], aa[k - 1], t);
      }
    }
  }

  /** Caller `t` puts its frame on the wire, or fails to. */
  predicate WritesFrame(s: System, a: Action, t: nat) {
    StepsAt(s, a, t) && s.threads[t].pc.Write?
  }

  // ---- what a caller has been told --------------------------------------------

  /** The peer sent `f` before step `k`. */
  ghost predicate Heard(aa: seq<Action>, k: nat, f: Frame)
    requires k <= |aa|
  {
    exists d :: 0 <= d < k && aa[d] == RecvReply(f)
  }

  /** The reply that ends a call of this kind well, so far as the reply can. */
  predicate AnswersTo(kind: Kind, f: Frame) {
    match kind
    case Configure => !f.t.ErrorFrame? && f.epoch != NoEpoch
    case Identity => f.t.RegisteredFrame?
    case Send(_) => f.t.ResultFrame?
    case _ => false
  }

  /** The peer sent such a frame, naming the call's own id. */
  ghost predicate Answer(aa: seq<Action>, k: nat, th: Thread, f: Frame)
    requires k <= |aa|
  {
    Heard(aa, k, f) && f.id == Some(th.rid) && AnswersTo(th.kind, f)
  }

  /** A caller is where its kind of call can be. */
  predicate Fits(th: Thread) {
    match th.pc
    case CheckPhase => th.kind.Configure?
    case Deny => th.kind.Configure?
    case TakeGen => !th.kind.Identity? && !th.kind.Send?
    case Commit(e) => if e.NoEpoch? then th.kind.Halt? || th.kind.Resume? else th.kind.Configure?
    case HaltLock => th.kind.Halt?
    case HaltSentinel => th.kind.Halt?
    case HaltArm => th.kind.Halt?
    case HaltInsert => th.kind.Halt?
    case ResumeLock => th.kind.Resume?
    case ResumeInsert => th.kind.Resume?
    case ResumeDisarm => th.kind.Resume?
    case ResumeUnlink => th.kind.Resume?
    case CheckArmed => th.kind == Send(true)
    case CheckFile => th.kind == Send(true)
    case CheckSendPhase => th.kind == Send(true)
    case Snapshot => true
    case Write(_) => true
    case Done => true
    case Failed => true
    case _ => Requests(th.kind)
  }

  /** What a call that is past its reply rests on. */
  ghost predicate Told(aa: seq<Action>, k: nat, th: Thread)
    requires k <= |aa|
  {
    match th.pc
    case Decide(f) => Heard(aa, k, f) && f.id == Some(th.rid)
    case Commit(e) => e.NoEpoch? || exists f :: Answer(aa, k, th, f) && f.epoch == e
    case Deny => exists f :: Heard(aa, k, f) && f.id == Some(th.rid) && f.t == ErrorFrame(true)
    case Done =>
      && (th.kind.Configure? ==> exists f :: Answer(aa, k, th, f) && f.epoch.Epoch?)
      && (th.kind.Identity? || th.kind.Send? ==> exists f :: Answer(aa, k, th, f))
    case _ => true
  }

  ghost predicate AllTold(ss: seq<System>, aa: seq<Action>, k: nat)
    requires k <= |aa| && k < |ss|
  {
    && (forall t :: t in ss[k].threads ==> Fits(ss[k].threads[t]) && Told(aa, k, ss[k].threads[t]))
    && forall r :: r in ss[k].sh.replies ==> Heard(aa, k, ss[k].sh.replies[r])
  }

  lemma HeardOnward(aa: seq<Action>, k: nat, f: Frame)
    requires k < |aa| && Heard(aa, k, f)
    ensures Heard(aa, k + 1, f)
  {
    var d :| 0 <= d < k && aa[d] == RecvReply(f);
    assert 0 <= d < k + 1;
  }

  lemma ToldOnward(aa: seq<Action>, k: nat, th: Thread)
    requires k < |aa| && Told(aa, k, th)
    ensures Told(aa, k + 1, th)
  {
    hide Heard;
    forall f | Heard(aa, k, f) ensures Heard(aa, k + 1, f) {
      HeardOnward(aa, k, f);
    }
    forall f | Answer(aa, k, th, f) ensures Answer(aa, k + 1, th, f) {
    }
  }

  /** A caller's step leaves it with what it needs to rest on. */
  lemma TellsCaller(aa: seq<Action>, k: nat, s: System, t: nat, th: Thread, c: Choice)
    requires k <= |aa| && Fits(th) && Told(aa, k, th) && StepThread(s, t, th, c).Moved? && IdsOk(s.sh)
    requires forall r :: r in s.sh.replies ==> Heard(aa, k, s.sh.replies[r])
    ensures Fits(StepThread(s, t, th, c).th) && Told(aa, k, StepThread(s, t, th, c).th)
  {
    hide Heard;
    var next := StepThread(s, t, th, c).th;
    match th.pc {
      case Decide(f) =>
        if next.pc.Done? || next.pc.Commit? {
          assert Answer(aa, k, next, f);
        }
      case Commit(_) =>
        if next.pc.Done? && th.kind.Configure? {
          var f :| Answer(aa, k, th, f) && f.epoch == th.pc.epoch;
          assert Answer(aa, k, next, f);
        }
      case _ =>
    }
  }

  lemma RepliesHeard(aa: seq<Action>, k: nat, s: System, a: Action)
    requires k < |aa| && aa[k] == a && Apply(s, a).Some?
    requires forall r :: r in s.sh.replies ==> Heard(aa, k, s.sh.replies[r])
    ensures forall r :: r in Apply(s, a).value.sh.replies ==> Heard(aa, k + 1, Apply(s, a).value.sh.replies[r])
  {
    var z := Apply(s, a).value;
    forall r | r in z.sh.replies ensures Heard(aa, k + 1, z.sh.replies[r]) {
      var f := z.sh.replies[r];
      if a == RecvReply(f) {
        assert 0 <= k < k + 1;
      } else {
        HeldReply(s, a, r);
        HeardOnward(aa, k, f);
      }
    }
  }

  lemma HeldReply(s: System, a: Action, r: int)
    requires Apply(s, a).Some? && r in Apply(s, a).value.sh.replies
    requires a != RecvReply(Apply(s, a).value.sh.replies[r])
    ensures r in s.sh.replies && s.sh.replies[r] == Apply(s, a).value.sh.replies[r]
  {
  }

  lemma ToldStep(ss: seq<System>, aa: seq<Action>, k: nat, t: nat)
    requires k < |aa| < |ss| && k + 1 < |ss| && StepAt(ss, aa, k) && IdsOk(ss[k].sh) && AllTold(ss, aa, k)
    requires t in ss[k + 1].threads
    ensures Fits(ss[k + 1].threads[t]) && Told(aa, k + 1, ss[k + 1].threads[t])
  {
    var a, th := aa[k], ss[k + 1].threads[t];
    hide Heard, Told, Fits;
    if Own(a, t) {
      TellsCaller(aa, k, ss[k], t, ss[k].threads[t], a.choice);
      ToldOnward(aa, k, th);
    } else if t in ss[k].threads {
      ToldOnward(aa, k, th);
    } else {
      NothingToTell(aa, k + 1, th);
    }
  }

  lemma NothingToTell(aa: seq<Action>, k: nat, th: Thread)
    requires k <= |aa| && th.pc == Bridge.Entry(th.kind)
    ensures Fits(th) && Told(aa, k, th)
  {
  }

  /** In every run, whoever is past a reply has one. */
  lemma {:induction false} EveryoneTold(ss: seq<System>, aa: seq<Action>, k: nat)
    requires IsRun(ss, aa) && k < |ss|
    ensures AllTold(ss, aa, k)
  {
    if k > 0 {
      EveryoneTold(ss, aa, k - 1);
      Reachable(ss, aa, k - 1);
      assert StepAt(ss, aa, k - 1);
      hide Heard, Told, Fits, Apply, Inv;
      RepliesHeard(aa, k - 1, ss[k - 1], aa[k - 1]);
      ReachableIds(ss[k - 1]);
      var z := ss[k];
      forall t | t in z.threads ensures Fits(z.threads[t]) && Told(aa, k, z.threads[t]) {
        ToldStep(ss, aa, k - 1, t);
      }
    }
  }

  lemma ReachableIds(s: System)
    requires Inv(s)
    ensures IdsOk(s.sh)
  {
  }

  // ---- where "configured" comes from -----------------------------------------

  /** Caller `u` commits the epoch its configure was acknowledged with. */
  predicate Acknowledges(s: System, a: Action, u: nat) {
    Commits(s, a, u) && s.threads[u].kind.Configure? && s.threads[u].pc.Commit? && s.threads[u].pc.epoch.Epoch?
  }

  /** A new session, a lost one, or a configure that was denied. */
  predicate Revokes(s: System, a: Action) {
    || a.Accept? || a.ResetConn? || a.Crash? || a == RecvHello(true)
    || (a.Step? && Commits(s, a, a.t) && s.threads[a.t].pc.Deny?)
  }

  /** The last epoch acknowledged since the last session began or was denied. */
  function Standing(ss: seq<System>, aa: seq<Action>, k: nat): Option<int>
    requires k <= |aa| < |ss|
  {
    if k == 0 || Revokes(ss[k - 1], aa[k - 1]) then None
    else if aa[k - 1].Step? && Acknowledges(ss[k - 1], aa[k - 1], aa[k - 1].t)
    then Some(ss[k - 1].threads[aa[k - 1].t].pc.epoch.value)
    else Standing(ss, aa, k - 1)
  }

  lemma EpochStep(s: System, a: Action, standing: Option<int>)
    requires Inv(s) && Apply(s, a).Some? && EpochIs(s, standing)
    requires forall t :: t in s.threads ==> Fits(s.threads[t])
    ensures EpochIs(Apply(s, a).value,
      if Revokes(s, a) then None
      else if a.Step? && Acknowledges(s, a, a.t) then Some(s.threads[a.t].pc.epoch.value) else standing)
  {
    if a.Step? {
      assert Fits(s.threads[a.t]);
      CallerEpoch(s, a, standing);
    }
  }

  lemma CallerEpoch(s: System, a: Action, standing: Option<int>)
    requires ConnInv(s) && a.Step? && Apply(s, a).Some? && EpochIs(s, standing) && Fits(s.threads[a.t])
    ensures EpochIs(Apply(s, a).value,
      if Revokes(s, a) then None
      else if a.Step? && Acknowledges(s, a, a.t) then Some(s.threads[a.t].pc.epoch.value) else standing)
  {
  }

  /** `config_epoch` is that epoch, or 0, and "configured" stands on one. */
  predicate EpochIs(s: System, standing: Option<int>) {
    && s.sh.epoch == (if standing.Some? then standing.value else 0)
    && (s.sh.state == Configured ==> standing.Some?)
  }

  /** At every step `config_epoch` is the last epoch a configure committed since the
      last accept, hello or denied configure, and 0 if there is none; and the bridge
      is "configured" only if there is one, whoever's resume said so. */
  lemma {:induction false} ConfiguredByPeer(ss: seq<System>, aa: seq<Action>, k: nat)
    requires IsRun(ss, aa) && k < |ss|
    ensures EpochIs(ss[k], Standing(ss, aa, k))
  {
    if k > 0 {
      ConfiguredByPeer(ss, aa, k - 1);
      Reachable(ss, aa, k - 1);
      EveryoneTold(ss, aa, k - 1);
      assert StepAt(ss, aa, k - 1);
      hide Apply, EpochIs, Inv, Revokes, Acknowledges;
      EpochStep(ss[k - 1], aa[k - 1], Standing(ss, aa, k - 1));
    }
  }

  /** Such an epoch was committed, by a configure the peer acknowledged with it, and
      no session began or was denied since. */
  lemma {:induction false} StandingMeans(ss: seq<System>, aa: seq<Action>, k: nat) returns (i: nat, u: nat, f: Frame)
    requires IsRun(ss, aa) && k < |ss| && Standing(ss, aa, k).Some?
    ensures i < k && Acknowledges(ss[i], aa[i], u) && ss[i].threads[u].pc.epoch == Epoch(Standing(ss, aa, k).value)
    ensures Answer(aa, i, ss[i].threads[u], f) && f.epoch == Epoch(Standing(ss, aa, k).value)
    ensures forall j :: i < j < k ==> !Revokes(ss[j], aa[j])
  {
    if aa[k - 1].Step? && Acknowledges(ss[k - 1], aa[k - 1], aa[k - 1].t) {
      i, u := k - 1, aa[k - 1].t;
      EveryoneTold(ss, aa, i);
      var th := ss[i].threads[u];
      assert Told(aa, i, th);
      f :| Answer(aa, i, th, f) && f.epoch == th.pc.epoch;
    } else {
      i, u, f := StandingMeans(ss, aa, k - 1);
    }
  }

  /** DENY-ALL: a send that registers an id or writes a frame read "configured" since
      it was called, and that stood on a configure the peer had acknowledged, with no
      new session, lost session or denied configure since. */
  lemma SendsOnlyConfigured(ss: seq<System>, aa: seq<Action>, j: nat, k: nat, t: nat)
    returns (m: nat, i: nat, u: nat, f: Frame)
    requires IsRun(ss, aa) && j < k < |aa| && NoCrash(aa, j, k) && aa[j] == Begin(t, Send(true))
    requires Registers(ss[k], aa[k], t) || WritesFrame(ss[k], aa[k], t)
    ensures j < m < k && StepsAt(ss[m], aa[m], t) && ss[m].sh.state == Configured
    ensures i < m && Acknowledges(ss[i], aa[i], u) && Answer(aa, i, ss[i].threads[u], f)
    ensures forall n :: i < n < m ==> !Revokes(ss[n], aa[n])
  {
    SendGoesOnExactlyWhen(ss, aa, j, k, t);
    var v := StepsOf(aa, j, k, t);
    assert Clear(ss[v[2]], aa[v[2]], 2);
    m := v[2];
    SendGoesOnExactlyWhen(ss, aa, j, m, t);
    ConfiguredByPeer(ss, aa, m);
    i, u, f := StandingMeans(ss, aa, m);
  }

  /** A call that returned was answered: the peer sent a frame of the right type that
      names the call's own id, and for a configure one with an epoch in it. */
  lemma SuccessIsAnswered(ss: seq<System>, aa: seq<Action>, k: nat, t: nat) returns (f: Frame)
    requires IsRun(ss, aa) && k < |ss| && t in ss[k].threads
    requires ss[k].threads[t].pc.Done? && Requests(ss[k].threads[t].kind)
    ensures Answer(aa, k, ss[k].threads[t], f) && (ss[k].threads[t].kind.Configure? ==> f.epoch.Epoch?)
  {
    EveryoneTold(ss, aa, k);
    var th := ss[k].threads[t];
    assert Told(aa, k, th);
    if th.kind.Configure? {
      f :| Answer(aa, k, th, f) && f.epoch.Epoch?;
    } else {
      f :| Answer(aa, k, th, f);
    }
  }

  // ---- each call from its beginning to its end --------------------------------

  lemma LeadsOne(s: System, a: Action) returns (z: System)
    requires Apply(s, a).Some?
    ensures z == Apply(s, a).value && Leads(s, [a], z)
  {
    z := Apply(s, a).value;
  }

  /** The fields once a request has been answered: an id spent, its event set. */
  function Spent(sh: Shared): Shared {
    sh.(nextId := sh.nextId + 1, woken := sh.woken + {sh.nextId + 1})
  }

  /** The steps of a request from its id to its reply. */
  function Asking(t: nat, f: Frame): seq<Action> {
    var p := Step(t, Plain);
    [p, p, p] + [RecvReply(f), SetEvent, p, p]
  }

  lemma Exchanged(s: System, t: nat, kind: Kind, gen: nat, f: Frame) returns (z: System)
    requires s.reader.Serving? && s.sh.conn.Some? && IdsOk(s.sh) && Requests(kind)
    requires CallAt(s, t, kind, Register, gen, 0) && f.id == Some(s.sh.nextId + 1)
    ensures Leads(s, Asking(t, f), z)
    ensures z == s.(sh := Spent(s.sh), threads := s.threads[t := Thread(kind, Decide(f), gen, s.sh.nextId + 1)])
  {
    var p := Step(t, Plain);
    var b := Asked(s, t, kind, gen);
    z := Replied(b, t, kind, gen, f);
    LeadsThrough(s, [p, p, p], b, [RecvReply(f), SetEvent, p, p], z);
    AskedThreads(s, t, [p, p, p], b);
    AskedThreads(b, t, [RecvReply(f), SetEvent, p, p], z);
    assert z.sh == Spent(s.sh);
  }

  /** No caller but `t` moves. */
  lemma {:induction false} AskedThreads(s: System, t: nat, aa: seq<Action>, z: System)
    requires Leads(s, aa, z) && forall a <- aa :: a.RecvReply? || a.SetEvent? || Own(a, t)
    ensures forall u :: u in s.threads && u != t ==> u in z.threads && z.threads[u] == s.threads[u]
    decreases |aa|
  {
    if aa != [] {
      var m := Apply(s, aa[0]).value;
      AskedThreads(m, t, aa[1..], z);
      forall u | u in s.threads && u != t ensures u in m.threads && m.threads[u] == s.threads[u] {
        OthersLeave(s, aa[0], u);
      }
    }
  }

  /** One step of caller `t`, at the end of some. */
  lemma Steps(m: System, t: nat, c: Choice) returns (z: System)
    requires t in m.threads && StepThread(m, t, m.threads[t], c).Moved?
    ensures Leads(m, [Step(t, c)], z)
    ensures var next := StepThread(m, t, m.threads[t], c); z == next.s.(threads := m.threads[t := next.th])
  {
    z := LeadsOne(m, Step(t, c));
  }

  lemma Further(s: System, aa: seq<Action>, m: System, t: nat, c: Choice) returns (z: System)
    requires Leads(s, aa, m) && t in m.threads && StepThread(m, t, m.threads[t], c).Moved?
    ensures Leads(s, aa + [Step(t, c)], z)
    ensures var next := StepThread(m, t, m.threads[t], c); z == next.s.(threads := m.threads[t := next.th])
  {
    z := Steps(m, t, c);
    LeadsThrough(s, aa, m, [Step(t, c)], z);
  }

  lemma Begins(s: System, t: nat, kind: Kind) returns (z: System)
    requires t !in s.threads
    ensures Leads(s, [Begin(t, kind)], z) && z == s.(threads := s.threads[t := Thread(kind, Bridge.Entry(kind), 0, 0)])
  {
    z := LeadsOne(s, Begin(t, kind));
  }

  /** Up to the id: a send that is not refused, and an identity. */
  function Calling(t: nat, kind: Kind): seq<Action> {
    var p := Step(t, Plain);
    if kind == Send(true) then [Begin(t, kind), p, p, p] else [Begin(t, kind)]
  }

  lemma Called(s: System, t: nat, kind: Kind) returns (z: System)
    requires t !in s.threads && (kind.Identity? || kind.Send?)
    requires kind == Send(true) ==> !s.armed && !s.disk.sentinel && s.sh.state == Configured
    ensures Leads(s, Calling(t, kind), z)
    ensures z == s.(threads := s.threads[t := Thread(kind, Register, 0, 0)])
  {
    hide Apply, Leads;
    var p := Step(t, Plain);
    z := Begins(s, t, kind);
    if kind == Send(true) {
      z := Further(s, [Begin(t, kind)], z, t, Plain);
      z := Further(s, [Begin(t, kind)] + [p], z, t, Plain);
      z := Further(s, [Begin(t, kind)] + [p] + [p], z, t, Plain);
      assert [Begin(t, kind)] + [p] + [p] + [p] == Calling(t, kind);
    }
  }

  /** A whole send, or identity, with nothing interleaved but its reply: it returns
      exactly when the reply is of the type that answers it, and all it leaves
      behind is an id spent. */
  lemma CallAnswered(s: System, t: nat, kind: Kind, f: Frame) returns (z: System)
    requires s.reader.Serving? && s.sh.conn.Some? && IdsOk(s.sh) && t !in s.threads && (kind.Identity? || kind.Send?)
    requires kind == Send(true) ==> !s.armed && !s.disk.sentinel && s.sh.state == Configured
    requires f.id == Some(s.sh.nextId + 1)
    ensures Leads(s, Calling(t, kind) + Asking(t, f) + [Step(t, Plain)], z)
    ensures z == s.(sh := Spent(s.sh),
      threads := s.threads[t := Thread(kind, if AnswersTo(kind, f) then Done else Failed, 0, s.sh.nextId + 1)])
  {
    hide Apply, Leads, Calling, Asking, Spent, IdsOk;
    var a := Called(s, t, kind);
    var b := Exchanged(a, t, kind, 0, f);
    LeadsThrough(s, Calling(t, kind), a, Asking(t, f), b);
    z := Further(s, Calling(t, kind) + Asking(t, f), b, t, Plain);
  }

  /** What a configure makes of its reply: an error of a denying class is a session
      with no scope; any other error, or no epoch that can be read, changes nothing;
      an epoch is committed, and a halt is not lifted by it. */
  function Heeding(sh: Shared, f: Frame): Shared {
    if f.t == ErrorFrame(true) then sh.(state := Connected, epoch := 0)
    else if f.t.ErrorFrame? || !f.epoch.Epoch? then sh
    else sh.(epoch := f.epoch.value, state := if sh.state == Halted then Halted else Configured)
  }

  lemma ConfigureHeeds(s: System, t: nat, f: Frame) returns (aa: seq<Action>, z: System)
    requires s.sh.conn.Some? && CallAt(s, t, Kind.Configure, Decide(f), s.sh.generation, s.sh.nextId)
    ensures Leads(s, aa, z) && forall a <- aa :: Own(a, t)
    ensures z == s.(sh := Heeding(s.sh, f), threads := z.threads) && t in z.threads
    ensures z.threads[t].pc == if !f.t.ErrorFrame? && f.epoch.Epoch? then Done else Failed
  {
    var p := Step(t, Plain);
    z := Apply(s, p).value;
    aa := [p];
    if !z.threads[t].pc.Failed? {
      var m := z;
      z := Apply(m, p).value;
      assert Leads(m, [p], z);
      aa := [p, p];
    }
  }

  lemma ConfigureAnswered(s: System, t: nat, f: Frame) returns (aa: seq<Action>, z: System)
    requires s.reader.Serving? && s.sh.conn.Some? && IdsOk(s.sh) && s.sh.state != Waiting && t !in s.threads
    requires f.id == Some(s.sh.nextId + 1)
    ensures Leads(s, aa, z)
    ensures forall a <- aa :: a == RecvReply(f) || a.SetEvent? || a == Begin(t, Configure) || Own(a, t)
    ensures t in z.threads && z == s.(sh := Heeding(Spent(s.sh), f), threads := z.threads)
    ensures z.threads[t].pc == if !f.t.ErrorFrame? && f.epoch.Epoch? then Done else Failed
  {
    hide Apply, Leads, IdsOk, Heeding;
    var p := Step(t, Plain);
    var opening := [Begin(t, Kind.Configure), p, p];
    var a := Opened(s, t);
    var b := Exchanged(a, t, Kind.Configure, s.sh.generation, f);
    LeadsThrough(s, opening, a, Asking(t, f), b);
    var rest;
    rest, z := ConfigureHeeds(b, t, f);
    LeadsThrough(s, opening + Asking(t, f), b, rest, z);
    aa := opening + Asking(t, f) + rest;
  }

  /** The durable half of a halt: sentinel and memory, and then the row. It needs no
      peer. */
  lemma HaltsHere(s: System, t: nat, ts: int) returns (aa: seq<Action>, z: System)
    requires t !in s.threads && s.lock.None?
    ensures Leads(s, aa, z) && forall a <- aa :: a == Begin(t, Halt) || Own(a, t)
    ensures z == s.(armed := true, disk := Disk(true, s.disk.log + [HaltRow(ts)]),
                    threads := s.threads[t := Thread(Halt, TakeGen, 0, 0)])
  {
    hide Apply, Leads;
    z := Begins(s, t, Halt);
    aa := [Begin(t, Halt)];
    z := Further(s, aa, z, t, Plain);
    aa := aa + [Step(t, Plain)];
    z := Further(s, aa, z, t, Plain);
    aa := aa + [Step(t, Plain)];
    z := Further(s, aa, z, t, Plain);
    aa := aa + [Step(t, Plain)];
    z := Further(s, aa, z, t, Choice.At(ts));
    aa := aa + [Step(t, Choice.At(ts))];
  }

  /** A whole halt. With a peer, the frame goes out and the state is "halted"; with
      none it raises, and stands. */
  lemma HaltCalled(s: System, t: nat, ts: int) returns (aa: seq<Action>, z: System)
    requires t !in s.threads && s.lock.None?
    ensures Leads(s, aa, z) && forall a <- aa :: a == Begin(t, Halt) || Own(a, t)
    ensures t in z.threads && z.armed && z.disk == Disk(true, s.disk.log + [HaltRow(ts)])
    ensures z.lock == s.lock && z.reader == s.reader
    ensures z.sh == if s.sh.conn.Some? then s.sh.(state := Halted) else s.sh
    ensures z.threads[t].pc == if s.sh.conn.Some? then Done else Failed
  {
    hide Apply, Leads;
    aa, z := HaltsHere(s, t, ts);
    z := Further(s, aa, z, t, Plain);
    aa := aa + [Step(t, Plain)];
    z := Further(s, aa, z, t, Plain);
    aa := aa + [Step(t, Plain)];
    if s.sh.conn.Some? {
      z := Further(s, aa, z, t, Plain);
      aa := aa + [Step(t, Plain)];
      z := Further(s, aa, z, t, Plain);
      aa := aa + [Step(t, Plain)];
    }
  }

  /** The wire half of a resume. */
  lemma ResumeSent(s: System, t: nat) returns (aa: seq<Action>, z: System)
    requires t !in s.threads
    ensures Leads(s, aa, z) && forall a <- aa :: a == Begin(t, Resume) || Own(a, t)
    ensures s.sh.conn.Some? ==>
      z == s.(threads := s.threads[t := Thread(Resume, ResumeLock, s.sh.generation, 0)],
              sh := s.sh.(state := if s.sh.epoch != 0 then Configured else Connected))
    ensures s.sh.conn.None? ==> z == s.(threads := s.threads[t := Thread(Resume, Failed, s.sh.generation, 0)])
  {
    hide Apply, Leads;
    z := Begins(s, t, Resume);
    aa := [Begin(t, Resume)];
    z := Further(s, aa, z, t, Plain);
    aa := aa + [Step(t, Plain)];
    z := Further(s, aa, z, t, Plain);
    aa := aa + [Step(t, Plain)];
    if s.sh.conn.Some? {
      z := Further(s, aa, z, t, Plain);
      aa := aa + [Step(t, Plain)];
      z := Further(s, aa, z, t, Plain);
      aa := aa + [Step(t, Plain)];
    }
  }

  /** The durable half of a resume. */
  lemma ResumeRecorded(s: System, t: nat, ts: int) returns (aa: seq<Action>, z: System)
    requires s.lock.None? && t in s.threads && s.threads[t].pc.ResumeLock?
    ensures Leads(s, aa, z) && forall a <- aa :: Own(a, t)
    ensures z == s.(armed := false, disk := Disk(false, s.disk.log + [ResumeRow(ts)]),
                    threads := s.threads[t := s.threads[t].(pc := Done)])
  {
    hide Apply, Leads;
    z := Steps(s, t, Plain);
    aa := [Step(t, Plain)];
    z := Further(s, aa, z, t, Choice.At(ts));
    aa := aa + [Step(t, Choice.At(ts))];
    z := Further(s, aa, z, t, Plain);
    aa := aa + [Step(t, Plain)];
    z := Further(s, aa, z, t, Plain);
    aa := aa + [Step(t, Plain)];
  }

  /** A whole resume. With a peer, it lifts the state, records its row, disarms and
      unlinks; with none it raises, and has lifted nothing. */
  lemma ResumeCalled(s: System, t: nat, ts: int) returns (aa: seq<Action>, z: System)
    requires t !in s.threads && s.lock.None?
    ensures Leads(s, aa, z) && forall a <- aa :: a == Begin(t, Resume) || Own(a, t)
    ensures t in z.threads && z.reader == s.reader && z.lock == s.lock
    ensures s.sh.conn.Some? ==>
      && !z.armed && z.disk == Disk(false, s.disk.log + [ResumeRow(ts)]) && z.threads[t].pc.Done?
      && z.sh == s.sh.(state := if s.sh.epoch != 0 then Configured else Connected)
    ensures s.sh.conn.None? ==>
      z.armed == s.armed && z.disk == s.disk && z.sh == s.sh && z.threads[t].pc.Failed?
  {
    hide Apply, Leads;
    aa, z := ResumeSent(s, t);
    if s.sh.conn.Some? {
      var m, bb := z, [];
      bb, z := ResumeRecorded(m, t, ts);
      LeadsThrough(s, aa, m, bb, z);
      aa := aa + bb;
    }
  }
}
