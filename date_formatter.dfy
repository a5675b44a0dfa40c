/**
 * The shared date helper: a "naked" MM/dd/yyyy date is resolved to an
 * instant by appending a time of day (noon unless the caller gives one) and
 * handing the result to a DateFormatter configured as "MM/dd/yyyy HH:mm" in
 * the caller's time zone. The formatter itself is the `dateFormatter` field
 * of the environment.
 */
module FidoDateFormatter {
  import opened Wrappers
  import opened Rows

  /** The time of day assumed for any Fidelity date. */
  const DefaultTimeOfDay := "12:00"

  /** `defTimeOfDay ?? "12:00"`. */
  function TimeOfDay(defTimeOfDay: Option<string>): string {
    defTimeOfDay.GetOr(DefaultTimeOfDay)
  }

  /** The interpolation `"\(mmddyyyy) \(timeOfDay)"`. */
  function DateString(mmddyyyy: string, timeOfDay: string): (r: string)
    ensures |r| == |mmddyyyy| + 1 + |timeOfDay|
    ensures r[..|mmddyyyy|] == mmddyyyy && r[|mmddyyyy|] == ' ' && r[|mmddyyyy| + 1..] == timeOfDay
  {
    mmddyyyy + " " + timeOfDay
  }

  /**
   * `parseFidoMMDDYYYY`: nil without a date string or when the time of day
   * is not exactly five characters long; otherwise the formatter's reading
   * of the composed string in exactly the given time zone.
   */
  function ParseFidoMMDDYYYY(env: Env, mmddyyyy: Option<string>, defTimeOfDay: Option<string>, timeZone: TimeZone): (r: Option<Instant>)
    ensures mmddyyyy.None? ==> r.None?
    ensures |TimeOfDay(defTimeOfDay)| != 5 ==> r.None?
    ensures mmddyyyy.Some? && |TimeOfDay(defTimeOfDay)| == 5 ==>
      r == env.dateFormatter(DateString(mmddyyyy.value, TimeOfDay(defTimeOfDay)), timeZone)
  {
    var timeOfDay := TimeOfDay(defTimeOfDay);
    if mmddyyyy.None? || |timeOfDay| != 5 then None
    else env.dateFormatter(DateString(mmddyyyy.value, timeOfDay), timeZone)
  }

  /** A missing time of day is the same as noon. */
  lemma NoTimeOfDayIsNoon(env: Env, mmddyyyy: Option<string>, timeZone: TimeZone)
    ensures ParseFidoMMDDYYYY(env, mmddyyyy, None, timeZone)
         == ParseFidoMMDDYYYY(env, mmddyyyy, Some("12:00"), timeZone)
  {
  }

  /**
   * The string handed to the formatter can be taken apart again: the date
   * is everything before the last six characters, and the time of day is
   * the last five.
   */
  lemma DateStringSplits(mmddyyyy: string, timeOfDay: string)
    requires |timeOfDay| == 5
    ensures var s := DateString(mmddyyyy, timeOfDay);
      s[..|s| - 6] == mmddyyyy && s[|s| - 6] == ' ' && s[|s| - 5..] == timeOfDay
  {
  }

  /** Different dates (or times of day) reach the formatter as different strings. */
  lemma DateStringInjective(d1: string, t1: string, d2: string, t2: string)
    requires |t1| == 5 && |t2| == 5
    requires DateString(d1, t1) == DateString(d2, t2)
    ensures d1 == d2 && t1 == t2
  {
    DateStringSplits(d1, t1);
    DateStringSplits(d2, t2);
  }

  /**
   * The result depends on the formatter only through its readings in the
   * time zone passed in: no ambient zone is consulted.
   */
  lemma OnlyTheGivenZone(env1: Env, env2: Env, mmddyyyy: Option<string>, defTimeOfDay: Option<string>, timeZone: TimeZone)
    requires forall s :: env1.dateFormatter(s, timeZone) == env2.dateFormatter(s, timeZone)
    ensures ParseFidoMMDDYYYY(env1, mmddyyyy, defTimeOfDay, timeZone)
         == ParseFidoMMDDYYYY(env2, mmddyyyy, defTimeOfDay, timeZone)
  {
  }
}
