/** What the two filesystem models share: lookups, and the counting of calls that fail. */
module FaultSchedule {

  /** What looking up a name says: there is nothing, something with this identity, or the call failed. */
  datatype Lookup = Absent | Present(id: nat) | Failed

  /** How many of the first `calls` calls a fault schedule makes fail. */
  function Failures(schedule: nat -> bool, calls: nat): nat {
    if calls == 0 then 0 else Failures(schedule, calls - 1) + if schedule(calls - 1) then 1 else 0
  }
}
