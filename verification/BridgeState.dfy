/** The locked regions of `hx.bridge.server.BridgeServer`, as functions of the
    fields they read and write. */
module BridgeState {
  import opened Options

  datatype Phase = Waiting | Connected | Configured | Halted

  /** `config_epoch` of a reply: absent, not readable by `int()`, or a number. */
  datatype EpochField = NoEpoch | BadEpoch | Epoch(value: int)

  datatype Type = ConfiguredFrame | ResultFrame | RegisteredFrame | ErrorFrame(denying: bool)

  /** A frame `_deliver` is handed: the correlation id it names, if any, its type
      and its `config_epoch`. `denying` is membership of the error's class in
      `_DENYING_CONFIGURE_ERRORS`. */
  datatype Frame = Frame(id: Option<int>, t: Type, epoch: EpochField)

  /** The fields of one server. A connection is named by the generation that
      `_serve` gave it; `woken` holds the ids whose event is set. */
  datatype Shared = Shared(
    conn: Option<nat>, generation: nat, state: Phase, epoch: int,
    pending: set<int>, woken: set<int>, replies: map<int, Frame>, nextId: nat)

  const FRESH := Shared(None, 0, Waiting, 0, {}, {}, map[], 0)

  function AcceptRegion(s: Shared): Shared {
    s.(generation := s.generation + 1, conn := Some(s.generation + 1))
  }

  function ResetRegion(s: Shared, gen: Option<nat>): Shared {
    if gen.Some? && gen.value != s.generation then s
    else Shared(None, s.generation + 1, Waiting, 0, {}, s.woken + s.pending, map[], s.nextId)
  }

  function HelloRegion(s: Shared): Shared {
    s.(state := Connected, epoch := 0)
  }

  function HaltedRegion(s: Shared): Shared {
    s.(state := Halted)
  }

  predicate Wanted(s: Shared, f: Frame) {
    f.id.Some? && f.id.value in s.pending
  }

  function DeliverRegion(s: Shared, f: Frame): Shared {
    if Wanted(s, f)
    then s.(replies := s.replies[f.id.value := f])
    else s
  }

  /** The waiter's event, which `_deliver` sets once it has let go of the lock. */
  function WakeRegion(s: Shared, rid: int): Shared {
    s.(woken := s.woken + {rid})
  }

  /** The new id is `nextId` of the result. */
  function RegisterRegion(s: Shared): Shared {
    s.(nextId := s.nextId + 1, pending := s.pending + {s.nextId + 1})
  }

  function GiveUpRegion(s: Shared, rid: int): Shared {
    s.(pending := s.pending - {rid})
  }

  function CollectRegion(s: Shared, rid: int): (Shared, Option<Frame>) {
    var t := s.(pending := s.pending - {rid});
    if rid in s.replies then (t.(replies := s.replies - {rid}), Some(s.replies[rid])) else (t, None)
  }

  /** The guard every commit shares: same generation, and a connection at all. */
  predicate StillMine(s: Shared, gen: nat) {
    gen == s.generation && s.conn.Some?
  }

  function DenyRegion(s: Shared, gen: nat): Shared {
    if StillMine(s, gen) then s.(state := Connected, epoch := 0) else s
  }

  /** What each commit writes; none of them is reached unless `StillMine`. */
  function CommitConfigure(s: Shared, epoch: int): Shared {
    s.(epoch := epoch, state := if s.state == Halted then Halted else Configured)
  }

  function CommitHalt(s: Shared): Shared {
    s.(state := Halted)
  }

  function CommitResume(s: Shared): Shared {
    s.(state := if s.epoch != 0 then Configured else Connected)
  }
}
