/** `BridgeServer`'s fields and the body of each region it runs under its lock.
    `Bridge` interleaves these regions; here each is the code that runs in one. */
module BridgeServer {
  import opened Options
  import opened BridgeState
  import opened BridgeProofs

  class BridgeServer {
    var conn: Option<nat>
    var generation: nat
    var state: Phase
    var epoch: int
    var pending: set<int>
    var woken: set<int>
    var replies: map<int, Frame>
    var nextId: nat

    ghost function Fields(): Shared
      reads this
    {
      Shared(conn, generation, state, epoch, pending, woken, replies, nextId)
    }

    constructor ()
      ensures Fields() == FRESH
    {
      conn, generation, state, epoch := None, 0, Waiting, 0;
      pending, woken, replies, nextId := {}, {}, map[], 0;
    }

    /** `_serve`, up to its `try`. The connection is named by its generation. */
    method Adopt() returns (gen: nat)
      modifies this
      ensures Fields() == AcceptRegion(old(Fields())) && gen == generation
      ensures gen > old(generation) && !StillMine(Fields(), old(generation))
    {
      generation := generation + 1;
      gen := generation;
      conn := Some(generation);
    }

    method Reset(gen: Option<nat>)
      modifies this
      ensures Fields() == ResetRegion(old(Fields()), gen)
      // nobody is left waiting, no reply is left behind, and no token taken before is current
      ensures gen.None? || gen.value == old(generation) ==>
        && pending == {} && old(pending) <= woken && replies == map[] && conn.None? && state == Waiting
        && forall token: nat :: token <= old(generation) ==> !StillMine(Fields(), token)
      ensures gen.Some? && gen.value != old(generation) ==> Fields() == old(Fields())
    {
      if gen.Some? && gen.value != generation {
        return;
      }
      generation := generation + 1;
      state := Waiting;
      epoch := 0;
      conn := None;
      woken := woken + pending;   // ev.set() for every waiter
      pending := {};
      replies := map[];
    }

    method OnHello()
      modifies this
      ensures Fields() == HelloRegion(old(Fields()))
    {
      state := Connected;
      epoch := 0;
    }

    /** The `halted` frame, and the commit of a re-asserted halt. */
    method OnHalted()
      modifies this
      ensures Fields() == HaltedRegion(old(Fields()))
    {
      state := Halted;
    }

    /** The locked half of `_deliver`; `waited` is whether there is an event to set. */
    method Deliver(f: Frame) returns (waited: bool)
      modifies this
      ensures Fields() == DeliverRegion(old(Fields()), f) && (waited <==> Wanted(old(Fields()), f))
      // a reply nobody awaits is kept for nobody
      ensures f.id.None? || f.id.value !in old(pending) ==> !waited && Fields() == old(Fields())
      ensures f.id.Some? && f.id.value in old(pending) ==>
        waited && f.id.value in replies && replies[f.id.value] == f
    {
      if f.id.None? || f.id.value !in pending {
        return false;
      }
      replies := replies[f.id.value := f];
      waited := true;
    }

    /** `ev.set()`, after the lock. */
    method SetEvent(rid: int)
      modifies this
      ensures Fields() == WakeRegion(old(Fields()), rid)
    {
      woken := woken + {rid};
    }

    method Register() returns (rid: nat)
      modifies this
      ensures Fields() == RegisterRegion(old(Fields())) && rid == nextId
      // an id no other caller has had, so one with no reply yet
      ensures IdsOk(old(Fields())) ==>
        IdsOk(Fields()) && rid in pending && rid !in old(pending) && rid !in replies
    {
      nextId := nextId + 1;
      rid := nextId;
      pending := pending + {rid};
    }

    method GiveUp(rid: int)
      modifies this
      ensures Fields() == GiveUpRegion(old(Fields()), rid)
    {
      pending := pending - {rid};
    }

    method Collect(rid: int) returns (got: Option<Frame>)
      modifies this
      ensures (Fields(), got) == CollectRegion(old(Fields()), rid)
      // the reply is the one that names the id, and is gone
      ensures IdsOk(old(Fields())) && got.Some? ==> got.value.id == Some(rid)
      ensures rid !in pending && rid !in replies
    {
      pending := pending - {rid};
      if rid !in replies {
        return None;
      }
      got := Some(replies[rid]);
      replies := replies - {rid};
    }

    method Deny(gen: nat)
      modifies this
      ensures Fields() == DenyRegion(old(Fields()), gen)
    {
      if gen == generation && conn.Some? {
        state := Connected;
        epoch := 0;
      }
    }

    /** Returns false where the source raises. */
    method AcknowledgeConfigure(gen: nat, ack: EpochField) returns (ok: bool)
      modifies this
      ensures ok <==> StillMine(old(Fields()), gen) && ack.Epoch?
      ensures Fields() == if ok then CommitConfigure(old(Fields()), ack.value) else old(Fields())
    {
      if gen != generation || conn.None? || !ack.Epoch? {
        return false;
      }
      epoch := ack.value;
      state := if state == Halted then Halted else Configured;
      ok := true;
    }

    method AcknowledgeHalt(gen: nat) returns (ok: bool)
      modifies this
      ensures ok <==> StillMine(old(Fields()), gen)
      ensures Fields() == if ok then CommitHalt(old(Fields())) else old(Fields())
    {
      if gen != generation || conn.None? {
        return false;
      }
      state := Halted;
      ok := true;
    }

    method AcknowledgeResume(gen: nat) returns (ok: bool)
      modifies this
      ensures ok <==> StillMine(old(Fields()), gen)
      ensures Fields() == if ok then CommitResume(old(Fields())) else old(Fields())
    {
      if gen != generation || conn.None? {
        return false;
      }
      state := if epoch != 0 then Configured else Connected;
      ok := true;
    }
  }
}
