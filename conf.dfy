/** The menu labels that the configuration stores, and the two tables that turn
    them into numbers: minimum event durations in minutes and clamping hours. */
module Conf {

  const FiveMinutes := "5 Minutes"
  const TenMinutes := "10 Minutes"
  const FifteenMinutes := "15 Minutes"
  const ThirtyMinutes := "30 Minutes"

  /** The label the start/end menus store for "no clamping": a non-empty string. */
  const NoneLabel := "None"

  const SixAm := "6:00 AM"
  const SevenAm := "7:00 AM"
  const EightAm := "8:00 AM"
  const ThreePm := "3:00 PM"
  const FourPm := "4:00 PM"
  const FivePm := "5:00 PM"

  const MultipleEvents := "Multiple Events"
  const SingleEvent := "Single Event"

  /** `DURATION_MAP`: minimum event duration label to minutes. */
  const DurationMap: map<string, int> :=
    map[FiveMinutes := 5, TenMinutes := 10, FifteenMinutes := 15, ThirtyMinutes := 30]

  /** `HOUR_MAP`: clock label to hour of the day. */
  const HourMap: map<string, int> :=
    map[SixAm := 6, SevenAm := 7, EightAm := 8, ThreePm := 15, FourPm := 16, FivePm := 17]

  /** Every hour in the table is an hour of the day, and every duration is positive. */
  lemma TablesInRange()
    ensures forall k :: k in HourMap ==> 0 <= HourMap[k] < 24
    ensures forall k :: k in DurationMap ==> 0 < DurationMap[k]
    ensures NoneLabel !in HourMap
  {
  }
}
