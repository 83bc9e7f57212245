/** The statistics window (`LifeMonitor`): four labels, modelled by their
    text, and the all-time oldest age it has been told about. */
module Monitor {
  import opened Text

  function Max(a: int, b: int): int {
    if a >= b then a else b
  }

  function LivingText(living: int): string {
    "Estimated living\n" + IntToString(living)
  }

  function DeadText(dead: int): string {
    "Estimated dead\n" + IntToString(dead)
  }

  function OldestLivingText(oldest: int): string {
    "Oldest living\n" + IntToString(oldest)
  }

  function OldestEverText(oldest: int): string {
    "Oldest ever\n" + IntToString(oldest)
  }

  /** The record after reporting each age of `reports` in turn, starting from `start`. */
  function RecordAfter(start: int, reports: seq<int>): int
    decreases |reports|
  {
    if reports == [] then start else RecordAfter(Max(start, reports[0]), reports[1..])
  }

  /** Starting from 0, the record is the largest report, or 0 if none is
      larger: it is never below any report nor below where it started. */
  lemma {:induction false} RecordIsRunningMaximum(start: int, reports: seq<int>)
    ensures RecordAfter(start, reports) >= start
    ensures forall k :: 0 <= k < |reports| ==> reports[k] <= RecordAfter(start, reports)
    ensures RecordAfter(start, reports) == start ||
            exists k :: 0 <= k < |reports| && reports[k] == RecordAfter(start, reports)
    decreases |reports|
  {
    if reports != [] {
      var rest := reports[1..];
      RecordIsRunningMaximum(Max(start, reports[0]), rest);
      assert forall k :: 1 <= k < |reports| ==> reports[k] == rest[k - 1];
      var r := RecordAfter(start, reports);
      if r != Max(start, reports[0]) {
        var j :| 0 <= j < |rest| && rest[j] == r;
        assert reports[j + 1] == r;
      }
    }
  }

  class LifeMonitor {
    var entityLivingPopulation: string
    var entityDeadPopulation: string
    var oldestLivingEntity: string
    var recordedOldestEntity: int
    var oldestEntityEver: string

    /** A fresh monitor: blank labels and no entity recorded yet. */
    constructor ()
      ensures entityLivingPopulation == "" && entityDeadPopulation == ""
      ensures oldestLivingEntity == "" && oldestEntityEver == ""
      ensures recordedOldestEntity == 0
    {
      entityLivingPopulation, entityDeadPopulation := "", "";
      oldestLivingEntity, oldestEntityEver := "", "";
      recordedOldestEntity := 0;
    }

    /** Sets the two population labels and nothing else. */
    method ReportEntityPopulation(living: int, dead: int)
      modifies this`entityLivingPopulation, this`entityDeadPopulation
      ensures entityLivingPopulation == LivingText(living)
      ensures entityDeadPopulation == DeadText(dead)
    {
      entityLivingPopulation := LivingText(living);
      entityDeadPopulation := DeadText(dead);
    }

    /** Keeps the running maximum of the reported ages and shows both the
        age just reported and the maximum. */
    method RecordOldestLivingEntity(oldest: int)
      modifies this`recordedOldestEntity, this`oldestLivingEntity, this`oldestEntityEver
      ensures recordedOldestEntity == Max(old(recordedOldestEntity), oldest)
      ensures recordedOldestEntity >= old(recordedOldestEntity)
      ensures oldestLivingEntity == OldestLivingText(oldest)
      ensures oldestEntityEver == OldestEverText(recordedOldestEntity)
    {
      if oldest > recordedOldestEntity {
        recordedOldestEntity := oldest;
      }
      oldestLivingEntity := OldestLivingText(oldest);
      oldestEntityEver := OldestEverText(recordedOldestEntity);
    }
  }
}
