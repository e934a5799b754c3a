/**
  The formatter's configuration (the fields of a DateOutput object) and the
  timezone it reads calendar points in.
 */
module Formatter {

  /**
    ts: the formatted epoch timestamp; time: whether generate appends the
    clock time; seconds: whether the clock time shows seconds; timezone: the
    zone override, where an empty value means the host's default zone.
   */
  datatype Config = Config(ts: int, time: bool, seconds: bool, timezone: string)

  /** PHP's empty() on a string: both "" and "0" count as empty. */
  predicate IsEmpty(s: string) {
    s == "" || s == "0"
  }

  /** getTimezone: the override when one is set, otherwise the host default. */
  function GetTimezone(c: Config, host: string): (zone: string)
    ensures zone == c.timezone || zone == host
    ensures zone == host <== IsEmpty(c.timezone)
    ensures !IsEmpty(c.timezone) ==> zone == c.timezone
  {
    if !IsEmpty(c.timezone) then c.timezone else host
  }

  /** setTimezone: replaces the override and nothing else. */
  function SetTimezone(c: Config, id: string): (c': Config)
    ensures c'.timezone == id
    ensures c'.ts == c.ts && c'.time == c.time && c'.seconds == c.seconds
  {
    c.(timezone := id)
  }

  /** Setting a zone and asking for it gives it back, unless it is empty. */
  lemma GetAfterSet(c: Config, id: string, host: string)
    ensures GetTimezone(SetTimezone(c, id), host) == (if IsEmpty(id) then host else id)
  {
  }

  /**
    The zone generate switches the host to before decomposing: it switches
    only when an override is set and differs from the current host zone.
   */
  function GenerateZone(c: Config, host: string): (zone: string)
    ensures zone == host || (!IsEmpty(c.timezone) && zone == c.timezone)
  {
    if !IsEmpty(c.timezone) && c.timezone != host then c.timezone else host
  }

  /**
    generate's switch leaves the host in the zone getTimezone reports. (ago
    switches whenever an override is set, which is getTimezone's own rule.)
   */
  lemma GenerateZoneIsReported(c: Config, host: string)
    ensures GenerateZone(c, host) == GetTimezone(c, host)
  {
  }
}
