/** What every run of the bridge keeps. */
module BridgeProofs {
  import opened Options
  import opened BridgeState
  import opened Bridge

  // ---- the inductive invariant ------------------------------------------

  /** A caller past `_send`'s snapshot and not yet past its commit. */
  predicate Sent(pc: Pc) {
    pc.Write? || pc.Await? || pc.Collect? || pc.Decide? || pc.Deny? || pc.Commit?
  }

  predicate HoldsLock(pc: Pc) {
    pc.HaltSentinel? || pc.HaltArm? || pc.HaltInsert?
    || pc.ResumeInsert? || pc.ResumeDisarm? || pc.ResumeUnlink?
  }

  /** DENY-ALL is the only state without a connection, and the read thread's
      connection is the one the fields describe. */
  predicate ConnInv(s: System) {
    && (s.reader.Accepting? ==> s.sh.conn.None?)
    && (!s.reader.Accepting? ==> s.sh.conn == Some(s.reader.gen) && s.sh.generation == s.reader.gen)
    && (s.sh.conn.None? ==> s.sh.state == Waiting && s.sh.epoch == 0 && s.sh.replies == map[])
  }

  /** A token that is still current names the live connection. */
  predicate TokenOk(sh: Shared, th: Thread) {
    && th.gen <= sh.generation
    && (Sent(th.pc) && th.gen == sh.generation ==> sh.conn == Some(th.gen))
  }

  /** Correlation ids are spent in order and every stored reply answers its key. */
  predicate IdsOk(sh: Shared) {
    && (forall r :: r in sh.pending ==> 1 <= r <= sh.nextId)
    && (forall r :: r in sh.replies ==> 1 <= r <= sh.nextId && sh.replies[r].id == Some(r))
  }

  predicate DistinctIds(a: Thread, b: Thread) {
    a.rid != 0 ==> a.rid != b.rid
  }

  /** `OperatorHalt._lock` is held by exactly the thread inside a transition. */
  predicate LockOk(lock: Option<nat>, t: nat, th: Thread) {
    HoldsLock(th.pc) <==> lock == Some(t)
  }

  predicate Inv(s: System) {
    && ConnInv(s)
    && IdsOk(s.sh)
    && (forall t :: t in s.threads ==> TokenOk(s.sh, s.threads[t]))
    && (forall t :: t in s.threads ==> 0 <= s.threads[t].rid <= s.sh.nextId)
    && (forall t, u :: t in s.threads && u in s.threads && t != u
          ==> DistinctIds(s.threads[t], s.threads[u]))
    && (s.lock.Some? ==> s.lock.value in s.threads)
    && (forall t :: t in s.threads ==> LockOk(s.lock, t, s.threads[t]))
  }

  // One caller step, seen by itself and by every other caller.

  lemma CallerFrame(s: System, t: nat, th: Thread, c: Choice)
    requires StepThread(s, t, th, c).Moved?
    ensures var m := StepThread(s, t, th, c);
      m.s.reader == s.reader && m.s.sh.generation == s.sh.generation && m.s.sh.conn == s.sh.conn
  {
  }

  lemma CallerConn(s: System, t: nat, th: Thread, c: Choice)
    requires ConnInv(s) && TokenOk(s.sh, th) && StepThread(s, t, th, c).Moved?
    ensures ConnInv(StepThread(s, t, th, c).s)
  {
  }

  lemma CallerToken(s: System, t: nat, th: Thread, c: Choice)
    requires ConnInv(s) && TokenOk(s.sh, th) && StepThread(s, t, th, c).Moved?
    ensures var m := StepThread(s, t, th, c);
      && TokenOk(m.s.sh, m.th) && ConnInv(m.s)
      && m.s.reader == s.reader && m.s.sh.generation == s.sh.generation && m.s.sh.conn == s.sh.conn
  {
    CallerFrame(s, t, th, c);
    CallerConn(s, t, th, c);
  }

  lemma CallerIds(s: System, t: nat, th: Thread, c: Choice)
    requires IdsOk(s.sh) && StepThread(s, t, th, c).Moved?
    ensures var m := StepThread(s, t, th, c);
      && IdsOk(m.s.sh) && s.sh.nextId <= m.s.sh.nextId
      && (m.th.rid == th.rid || m.th.rid == s.sh.nextId + 1 == m.s.sh.nextId)
  {
  }

  lemma CallerLock(s: System, t: nat, th: Thread, c: Choice)
    requires LockOk(s.lock, t, th) && StepThread(s, t, th, c).Moved?
    ensures var m := StepThread(s, t, th, c);
      && LockOk(m.s.lock, t, m.th)
      && (m.s.lock == s.lock || (s.lock == None && m.s.lock == Some(t)) || (s.lock == Some(t) && m.s.lock == None))
  {
  }

  lemma CallerKeepsInv(s: System, a: Action)
    requires Inv(s) && a.Step? && Apply(s, a).Some?
    ensures Inv(Apply(s, a).value)
  {
    var t, th, c := a.t, s.threads[a.t], a.choice;
    var z := Apply(s, a).value;
    assert TokenOk(s.sh, th) && LockOk(s.lock, t, th);
    CallerToken(s, t, th, c);
    CallerIds(s, t, th, c);
    CallerLock(s, t, th, c);
    forall u | u in z.threads
      ensures TokenOk(z.sh, z.threads[u]) && LockOk(z.lock, u, z.threads[u])
      ensures 0 <= z.threads[u].rid <= z.sh.nextId
    {
      assert TokenOk(s.sh, s.threads[u]) && LockOk(s.lock, u, s.threads[u]);
    }
    forall u, v | u in z.threads && v in z.threads && u != v
      ensures DistinctIds(z.threads[u], z.threads[v])
    {
      assert DistinctIds(s.threads[u], s.threads[v]);
    }
  }

  // The read thread, the other process and the crash.

  lemma ReaderStep(s: System, a: Action)
    requires ConnInv(s) && IdsOk(s.sh) && !a.Step? && Apply(s, a).Some?
    ensures var z := Apply(s, a).value;
      && ConnInv(z) && IdsOk(z.sh)
      && (a.Crash? || (s.sh.generation <= z.sh.generation && s.sh.nextId <= z.sh.nextId && z.lock == s.lock))
      && (a.Crash? || s.sh.generation < z.sh.generation || s.sh.conn == z.sh.conn)
      && (a.Crash? || a.Begin? || z.threads == s.threads)
  {
  }

  lemma EnvironmentKeepsInv(s: System, a: Action)
    requires Inv(s) && !a.Step? && Apply(s, a).Some?
    ensures Inv(Apply(s, a).value)
  {
    var z := Apply(s, a).value;
    ReaderStep(s, a);
    if !a.Crash? {
      forall u | u in z.threads
        ensures TokenOk(z.sh, z.threads[u]) && LockOk(z.lock, u, z.threads[u])
      {
        assert u in s.threads ==> TokenOk(s.sh, s.threads[u]) && LockOk(s.lock, u, s.threads[u]);
      }
      forall u, v | u in z.threads && v in z.threads && u != v
        ensures DistinctIds(z.threads[u], z.threads[v])
      {
        assert u in s.threads && v in s.threads ==> DistinctIds(s.threads[u], s.threads[v]);
      }
    }
  }

  lemma StepKeepsInv(s: System, a: Action)
    requires Inv(s) && Apply(s, a).Some?
    ensures Inv(Apply(s, a).value)
  {
    if a.Step? { CallerKeepsInv(s, a); } else { EnvironmentKeepsInv(s, a); }
  }

  /** Every state of every run satisfies the invariant. */
  lemma {:induction false} Reachable(ss: seq<System>, aa: seq<Action>, k: nat)
    requires IsRun(ss, aa) && k < |ss|
    ensures Inv(ss[k])
  {
    if k > 0 {
      Reachable(ss, aa, k - 1);
      assert StepAt(ss, aa, k - 1);
      StepKeepsInv(ss[k - 1], aa[k - 1]);
    }
  }
}
