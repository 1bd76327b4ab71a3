/** The durable half of the operator halt: the sentinel file and the row log. */
module HaltLog {

  datatype Entry = HaltRow(ts: int) | ResumeRow(ts: int)

  /** What survives the process: the HALTED file and the `agent_action` rows in
      insertion (rowid) order. `ts` is the wall clock, which may step backwards. */
  datatype Disk = Disk(sentinel: bool, log: seq<Entry>)

  /** The row `ORDER BY ts_us DESC, rowid DESC LIMIT 1` answers with. */
  function Latest(log: seq<Entry>): (k: nat)
    requires log != []
    ensures k < |log|
    ensures forall j :: 0 <= j < |log| ==> log[j].ts <= log[k].ts
    ensures forall j :: k < j < |log| ==> log[j].ts < log[k].ts
  {
    if |log| == 1 then 0
    else
      var k := Latest(log[..|log| - 1]);
      if log[|log| - 1].ts >= log[k].ts then |log| - 1 else k
  }

  /** What a freshly constructed `OperatorHalt` believes. */
  predicate ArmedAtBoot(log: seq<Entry>) {
    log != [] && log[Latest(log)].HaltRow?
  }

  /** Appending a row changes what the next process believes exactly when its
      clock reading is not older than the row that was current. */
  lemma ArmedAfterAppend(log: seq<Entry>, e: Entry)
    ensures ArmedAtBoot(log + [e]) <==>
            if log == [] || log[Latest(log)].ts <= e.ts then e.HaltRow? else ArmedAtBoot(log)
  {
    assert (log + [e])[..|log|] == log;
  }

  /** A completed resume is believed after a restart if and only if no halt row
      carries a later timestamp: "the latest of these two rows" is the latest by
      clock, not by insertion. */
  lemma ResumeSurvivesRestart(log: seq<Entry>, at: int)
    ensures !ArmedAtBoot(log + [ResumeRow(at)]) <==>
            log == [] || log[Latest(log)].ResumeRow? || log[Latest(log)].ts <= at
  {
    ArmedAfterAppend(log, ResumeRow(at));
  }

  /** The clock stepping back one microsecond between the two rows is enough for
      a resumed engagement to come back halted. */
  lemma ResumeLostToTheClock()
    ensures ArmedAtBoot([HaltRow(2)] + [ResumeRow(1)])
  {
    ResumeSurvivesRestart([HaltRow(2)], 1);
  }
}
