/** Who can certify, hold or be asked for a capability. */
module Actors {
  const MAX_PROCESSES: nat := 8
  /** Slots in the table of processes: slot 0 is never used, and process number 8 has none. */
  const PROCESS_COUNT: nat := 8

  datatype Actor = Kernel | Userspace(pid: nat)
  {
    /** Process numbers are 1 to `MAX_PROCESSES`. */
    predicate Legal() { Userspace? ==> 0 < pid <= MAX_PROCESSES }

    /** Processes map one page of certificates for each slot, so nobody can read those of process number 8. */
    predicate HasPage() { Userspace? ==> 0 < pid < PROCESS_COUNT }

    function Code(): nat { if Userspace? then pid else 0 }
  }
}
