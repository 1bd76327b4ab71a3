/** Every interleaving of the bridge's read thread, its callers, the operator
    halt, a second process holding the same engagement, and crashes. Each locked
    region, unlocked read, socket write and durable write is one step. */
module Bridge {
  import opened Options
  import opened HaltLog
  import opened BridgeState

  datatype Kind = Configure | Identity | Send(enforce: bool) | Halt | Resume

  /** Where a caller is: the step it takes next. */
  datatype Pc =
    | CheckPhase | TakeGen | Register | Snapshot | Write(conn: nat)
    | Await | GiveUp | Collect | Decide(reply: Frame) | Deny | Commit(epoch: EpochField)
    | HaltLock | HaltSentinel | HaltArm | HaltInsert
    | ResumeLock | ResumeInsert | ResumeDisarm | ResumeUnlink
    | CheckArmed | CheckFile | CheckSendPhase
    | Done | Failed

  datatype Thread = Thread(kind: Kind, pc: Pc, gen: nat, rid: int)

  /** The read thread. Every stage but `Accepting` carries the generation of the
      connection it serves. */
  datatype Reader =
    | Accepting | Serving(gen: nat) | Waking(gen: nat, rid: int) | HelloArmed(gen: nat) | HelloFile(gen: nat)
    | HelloWrite(gen: nat) | HelloCommit(gen: nat) | Closing(gen: nat)

  /** Another process's `OperatorHalt` over the same directory: between the two
      writes of its halt or of its resume, where it too may die. Its lock is not
      ours. */
  datatype Elsewhere = Idle | HaltWrote | ResumeWrote

  datatype System = System(
    sh: Shared, reader: Reader, threads: map<nat, Thread>,
    armed: bool, lock: Option<nat>, disk: Disk, elsewhere: Elsewhere)

  /** How a step that can go two ways goes. `late` is a write that took effect
      before the exception left it. */
  datatype Choice = Plain | Fails | FailsLate | TimesOut | At(ts: int)

  datatype Action =
    | Accept | PeerGone | ResetConn
    | RecvHello(ours: bool) | ReassertArmed | ReassertFile(statFails: bool)
    | ReassertWrite(ok: bool) | ReassertCommit
    | RecvHalted(recorded: bool) | RecvReply(frame: Frame) | SetEvent
    | Begin(t: nat, kind: Kind)
    | Step(t: nat, choice: Choice)
    | TouchFile
    | OtherHaltFile | OtherHaltRow(ts: int) | OtherResumeRow(ts: int) | OtherUnlink | OtherCrash
    | Crash

  function Boot(disk: Disk, elsewhere: Elsewhere): System {
    System(FRESH, Accepting, map[], ArmedAtBoot(disk.log), None, disk, elsewhere)
  }

  function Entry(kind: Kind): Pc {
    match kind
    case Configure => CheckPhase
    case Identity => Register
    case Send(enforce) => if enforce then CheckArmed else Register
    case Halt => HaltLock
    case Resume => TakeGen
  }

  /** A caller's step: what it makes of the shared fields and of itself. */
  datatype Outcome = Blocked | Moved(s: System, th: Thread)

  /** One atomic step of caller `t`, whose own record is `th`. */
  function StepThread(s: System, t: nat, th: Thread, c: Choice): Outcome {
    match th.pc
    case CheckPhase => Moved(s, th.(pc := if s.sh.state == Waiting then Failed else TakeGen))
    case TakeGen =>
      Moved(s, th.(gen := s.sh.generation,
        pc := if th.kind.Configure? then (if c.Fails? then Failed else Register) else Snapshot))
    case Register =>
      Moved(s.(sh := RegisterRegion(s.sh)), th.(rid := s.sh.nextId + 1, pc := Snapshot))
    case Snapshot =>
      Moved(s, th.(pc := if s.sh.conn.Some? then Write(s.sh.conn.value) else Failed))
    case Write(_) =>
      Moved(s, th.(pc := if c.Fails? then Failed
        else if th.kind.Halt? || th.kind.Resume? then Commit(NoEpoch) else Await))
    case Await =>
      if th.rid in s.sh.woken then Moved(s, th.(pc := Collect))
      else if c.TimesOut? then Moved(s, th.(pc := GiveUp)) else Blocked
    case GiveUp => Moved(s.(sh := GiveUpRegion(s.sh, th.rid)), th.(pc := Failed))
    case Collect =>
      var (sh, got) := CollectRegion(s.sh, th.rid);
      Moved(s.(sh := sh), th.(pc := if got.None? then Failed else Decide(got.value)))
    case Decide(reply) =>
      Moved(s, th.(pc := match th.kind
        case Configure =>
          if reply.t.ErrorFrame? then (if reply.t.denying then Deny else Failed)
          else if reply.epoch.NoEpoch? then Failed else Commit(reply.epoch)
        case Identity => if reply.t.RegisteredFrame? then Done else Failed
        case Send(_) => if reply.t.ResultFrame? then Done else Failed
        case _ => Failed))
    case Deny => Moved(s.(sh := DenyRegion(s.sh, th.gen)), th.(pc := Failed))
    case Commit(e) =>
      if !StillMine(s.sh, th.gen) then Moved(s, th.(pc := Failed))
      else if th.kind.Halt? then Moved(s.(sh := CommitHalt(s.sh)), th.(pc := Done))
      else if th.kind.Resume? then Moved(s.(sh := CommitResume(s.sh)), th.(pc := ResumeLock))
      else if e.Epoch? then Moved(s.(sh := CommitConfigure(s.sh, e.value)), th.(pc := Done))
      else Moved(s, th.(pc := Failed))
    case HaltLock =>
      if s.lock.None? then Moved(s.(lock := Some(t)), th.(pc := HaltSentinel)) else Blocked
    case HaltSentinel =>
      if c.Fails? then Moved(s.(lock := None), th.(pc := Failed))
      else if c.FailsLate?
      then Moved(s.(lock := None, disk := s.disk.(sentinel := true)), th.(pc := Failed))
      else Moved(s.(disk := s.disk.(sentinel := true)), th.(pc := HaltArm))
    case HaltArm => Moved(s.(armed := true), th.(pc := HaltInsert))
    case HaltInsert =>
      if c.At?
      then Moved(s.(lock := None, disk := s.disk.(log := s.disk.log + [HaltRow(c.ts)])), th.(pc := TakeGen))
      else Moved(s.(lock := None), th.(pc := Failed))
    case ResumeLock =>
      if s.lock.None? then Moved(s.(lock := Some(t)), th.(pc := ResumeInsert)) else Blocked
    case ResumeInsert =>
      if c.At?
      then Moved(s.(disk := s.disk.(log := s.disk.log + [ResumeRow(c.ts)])), th.(pc := ResumeDisarm))
      else Moved(s.(lock := None), th.(pc := Failed))
    case ResumeDisarm => Moved(s.(armed := false), th.(pc := ResumeUnlink))
    case ResumeUnlink =>
      if c.Fails? then Moved(s.(lock := None), th.(pc := Failed))
      else Moved(s.(lock := None, disk := s.disk.(sentinel := false)), th.(pc := Done))
    case CheckArmed => Moved(s, th.(pc := if s.armed then Failed else CheckFile))
    case CheckFile =>
      Moved(s, th.(pc := if s.disk.sentinel || c.Fails? then Failed else CheckSendPhase))
    case CheckSendPhase =>
      Moved(s, th.(pc := if s.sh.state == Configured then Register else Failed))
    case Done => Blocked
    case Failed => Blocked
  }

  function Apply(s: System, a: Action): Option<System> {
    match a
    case Accept =>
      if s.reader.Accepting?
      then Some(s.(sh := AcceptRegion(s.sh), reader := Serving(s.sh.generation + 1))) else None
    case PeerGone =>
      if s.reader.Serving? then Some(s.(reader := Closing(s.reader.gen))) else None
    case ResetConn =>
      if s.reader.Closing?
      then Some(s.(sh := ResetRegion(s.sh, Some(s.reader.gen)), reader := Accepting)) else None
    case RecvHello(ours) =>
      if !s.reader.Serving? then None
      else if ours then Some(s.(sh := HelloRegion(s.sh), reader := HelloArmed(s.reader.gen)))
      else Some(s.(reader := Closing(s.reader.gen)))
    case ReassertArmed =>
      if !s.reader.HelloArmed? then None
      else Some(s.(reader := if s.armed then HelloWrite(s.reader.gen) else HelloFile(s.reader.gen)))
    case ReassertFile(statFails) =>
      if !s.reader.HelloFile? then None
      else Some(s.(reader := if s.disk.sentinel || statFails
                             then HelloWrite(s.reader.gen) else Serving(s.reader.gen)))
    case ReassertWrite(ok) =>
      if !s.reader.HelloWrite? then None
      else Some(s.(reader := if ok then HelloCommit(s.reader.gen) else Closing(s.reader.gen)))
    case ReassertCommit =>
      if !s.reader.HelloCommit? then None
      else Some(s.(sh := HaltedRegion(s.sh), reader := Serving(s.reader.gen)))
    case RecvHalted(recorded) =>
      if !s.reader.Serving? then None
      else Some(s.(sh := HaltedRegion(s.sh),
                   reader := if recorded then s.reader else Closing(s.reader.gen)))
    case RecvReply(frame) =>
      if !s.reader.Serving? then None
      else if Wanted(s.sh, frame)
      then Some(s.(sh := DeliverRegion(s.sh, frame), reader := Waking(s.reader.gen, frame.id.value)))
      else Some(s)
    case SetEvent =>
      if !s.reader.Waking? then None
      else Some(s.(sh := WakeRegion(s.sh, s.reader.rid), reader := Serving(s.reader.gen)))
    case Begin(t, kind) =>
      if t in s.threads then None
      else Some(s.(threads := s.threads[t := Thread(kind, Entry(kind), 0, 0)]))
    case Step(t, c) =>
      if t !in s.threads then None
      else
        var m := StepThread(s, t, s.threads[t], c);
        if m.Blocked? then None else Some(m.s.(threads := s.threads[t := m.th]))
    case TouchFile => Some(s.(disk := s.disk.(sentinel := true)))
    case OtherHaltFile =>
      if s.elsewhere.Idle?
      then Some(s.(elsewhere := HaltWrote, disk := s.disk.(sentinel := true))) else None
    case OtherHaltRow(ts) =>
      if s.elsewhere.HaltWrote?
      then Some(s.(elsewhere := Idle, disk := s.disk.(log := s.disk.log + [HaltRow(ts)]))) else None
    case OtherResumeRow(ts) =>
      if s.elsewhere.Idle?
      then Some(s.(elsewhere := ResumeWrote, disk := s.disk.(log := s.disk.log + [ResumeRow(ts)]))) else None
    case OtherUnlink =>
      if s.elsewhere.ResumeWrote?
      then Some(s.(elsewhere := Idle, disk := s.disk.(sentinel := false))) else None
    case OtherCrash => if s.elsewhere.Idle? then None else Some(s.(elsewhere := Idle))
    case Crash => Some(Boot(s.disk, s.elsewhere))
  }

  predicate StepAt(ss: seq<System>, aa: seq<Action>, i: nat)
    requires i < |aa| < |ss|
  {
    Apply(ss[i], aa[i]) == Some(ss[i + 1])
  }

  /** A run: `ss[i + 1]` is what action `i` made of `ss[i]`. */
  ghost predicate IsRun(ss: seq<System>, aa: seq<Action>) {
    && |ss| == |aa| + 1
    && ss[0] == Boot(ss[0].disk, ss[0].elsewhere)
    && forall i :: 0 <= i < |aa| ==> StepAt(ss, aa, i)
  }
}
