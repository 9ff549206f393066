/**
  The deadline helper of the server (`calculateDeadline`): a priority name
  selects a number of days that is added to a copy of the start date.

  A date is a whole-day index. The source adds days with `setDate`, which
  rolls over months and years; on a day index that is plain addition. The
  module Calendar shows that the same offsets on civil dates agree with it.
*/
module Deadline {

  /** A calendar day, counted from a fixed epoch. */
  type Day = int

  /** The four priorities the client offers. */
  predicate IsKnownPriority(priority: string) {
    priority == "Urgent" || priority == "High" || priority == "Medium" || priority == "Low"
  }

  /** The `switch` of `calculateDeadline`: days to add for a priority; any other string adds none. */
  function Offset(priority: string): nat {
    if priority == "Urgent" then 1
    else if priority == "High" then 2
    else if priority == "Medium" then 7
    else if priority == "Low" then 30
    else 0
  }

  /**
    `calculateDeadline(startDate, priority)`. Total: every string is accepted,
    an unknown one yields the start date itself. The start date is a value,
    so the caller's date is never changed.
  */
  function CalculateDeadline(start: Day, priority: string): (deadline: Day)
    ensures priority == "Urgent" ==> deadline == start + 1
    ensures priority == "High" ==> deadline == start + 2
    ensures priority == "Medium" ==> deadline == start + 7
    ensures priority == "Low" ==> deadline == start + 30
    ensures !IsKnownPriority(priority) ==> deadline == start
    ensures start <= deadline <= start + 30
  {
    start + Offset(priority)
  }
}
