/** The names shared by every component: teams, models, roles, endpoints and days. */
module Domain {

  /** The value of the team tag. `Unmapped` is the value "UNMAPPED", which also stands for the absence of the tag. */
  datatype Team = Unmapped | Named(name: string)

  type Model = string
  /** An IAM role, identified by its ARN. */
  type Role = string
  /** A UTC calendar day, as the number of days since the epoch. */
  type Day = int

  datatype Endpoint = BedrockRuntime | BedrockMantle

  /** The actions that the audit log records. */
  datatype Action = ATTACH_DENY | ATTACH_DENY_FAILED | REMOVE_DENY | REMOVE_DENY_FAILED

  datatype Option<+T> = None | Some(value: T)

  const DAY_MS: int := 24 * 60 * 60 * 1000

  /** The UTC day of an instant given in epoch milliseconds. */
  function UsageDay(now: int): Day {
    now / DAY_MS
  }

  /** The day that ended at the midnight before `now`. */
  function PreviousUsageDay(now: int): Day {
    UsageDay(now - DAY_MS)
  }

  /** The instant lies on the day: not before its midnight, and before the next one. */
  predicate OnDay(now: int, day: Day) {
    day * 86_400_000 <= now < (day + 1) * 86_400_000
  }

  lemma DaysOfInstant(now: int, day: Day)
    ensures OnDay(now, day) <==> UsageDay(now) == day
    ensures OnDay(now, day) <==> PreviousUsageDay(now) == day - 1
  {
  }

  function DigitChar(n: nat): char
    requires n < 10
  {
    ('0' as int + n) as char
  }
}
