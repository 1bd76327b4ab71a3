/** `hx.halt.OperatorHalt`: one flag in memory, one file and one row log on disk. */
module OperatorHalt {
  import opened HaltLog

  /** The engagement directory and its database, shared by every process. */
  class Engagement {
    var disk: Disk

    constructor (disk: Disk)
      ensures this.disk == disk
    {
      this.disk := disk;
    }
  }

  /** Where a transition may raise. `DirSyncFails` is the fsync after the rename:
      the file is already in place when the exception leaves. */
  datatype HaltFault = NoHaltFault | SentinelFails | DirSyncFails | HaltRowFails
  datatype ResumeFault = NoResumeFault | ResumeRowFails | UnlinkFails

  datatype View = View(disk: Disk, armed: bool) {
    predicate Stopped() { armed || disk.sentinel }
  }

  class OperatorHalt {
    const engagement: Engagement
    var armed: bool

    ghost function State(): View
      reads this, engagement
    {
      View(engagement.disk, armed)
    }

    constructor (engagement: Engagement)
      ensures this.engagement == engagement
      ensures State() == View(engagement.disk, ArmedAtBoot(engagement.disk.log))
    {
      this.engagement := engagement;
      this.armed := ArmedAtBoot(engagement.disk.log);
    }

    /** `halted`: a union of the two places; a stat that fails for any reason but
        absence counts as present. */
    method Halted(statFails: bool) returns (r: bool)
      ensures r <==> State().Stopped() || statFails
    {
      r := armed;
      if !r {
        r := engagement.disk.sentinel || statFails;
      }
    }

    /** Sentinel first, row second. Returns false where the source raises. */
    method Halt(fault: HaltFault, ts: int) returns (ok: bool)
      modifies this`armed, engagement
      ensures ok <==> fault.NoHaltFault?
      ensures engagement.disk.sentinel <==> old(engagement.disk.sentinel) || !fault.SentinelFails?
      ensures armed <==> old(armed) || fault.HaltRowFails? || ok
      ensures engagement.disk.log == if ok then old(engagement.disk.log) + [HaltRow(ts)] else old(engagement.disk.log)
      ensures State().Stopped() || (fault.SentinelFails? && !old(State()).Stopped())
    {
      if fault.SentinelFails? { return false; }
      engagement.disk := engagement.disk.(sentinel := true);
      if fault.DirSyncFails? { return false; }
      armed := true;
      if fault.HaltRowFails? { return false; }
      engagement.disk := engagement.disk.(log := engagement.disk.log + [HaltRow(ts)]);
      ok := true;
    }

    /** Row first, sentinel last. Returns false where the source raises. */
    method Resume(fault: ResumeFault, ts: int) returns (ok: bool)
      modifies this`armed, engagement
      ensures ok <==> fault.NoResumeFault?
      ensures engagement.disk.sentinel <==> old(engagement.disk.sentinel) && !ok
      ensures armed <==> old(armed) && fault.ResumeRowFails?
      ensures engagement.disk.log ==
        if fault.ResumeRowFails? then old(engagement.disk.log) else old(engagement.disk.log) + [ResumeRow(ts)]
      ensures ok ==> !State().Stopped()
      ensures !ok && old(engagement.disk.sentinel) ==> State().Stopped()
    {
      if fault.ResumeRowFails? { return false; }
      engagement.disk := engagement.disk.(log := engagement.disk.log + [ResumeRow(ts)]);
      armed := false;
      if fault.UnlinkFails? { return false; }
      engagement.disk := engagement.disk.(sentinel := false);
      ok := true;
    }
  }
}
