/**
  The `deadline_` field of `Alarm`: zero means "not set".
 */
module Deadline {

  /** Default granularity of `Alarm::update`, one millisecond in microseconds. */
  const GRANULARITY: nat := 1000

  function Abs(x: int): nat {
    if x < 0 then -x else x
  }

  /** The field after `Alarm::update(target, granularity)`. */
  function Updated(deadline: nat, target: nat, granularity: int): nat {
    if target == 0 then 0
    else if Abs(target - deadline) < granularity then deadline
    else target
  }
}
