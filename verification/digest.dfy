/**
  The week message: the whole pipeline from the rows of the sheet to the
  text that is posted. The generation time stamp is a parameter, since the
  clock is outside the model.
 */
module Digest {
  import opened Wrappers
  import opened Text
  import opened Grid
  import opened Aggregate

  const NoData := "No timetable data found."

  /** The first line of every week message: the title in bold, then the time
      stamp it was generated at. */
  function Banner(timestamp: string): string {
    "**" + "Gaming Availability for the Week** (generated " + timestamp + ")"
  }

  /** One section per day, in the order of the days. */
  function Summaries(days: seq<Day>, times: seq<string>): seq<string> {
    seq(|days|, i requires 0 <= i < |days| => ProcessDay(days[i], times))
  }

  /** `build_week_message`: fewer than two rows give the no-data text;
      otherwise the banner, a blank line, and the sections of the days found
      by the row loop separated by blank lines. The days are those of the
      marker segments that have a player, in row order. */
  function BuildWeekMessage(rows: seq<Row>, timestamp: string): (text: string)
    ensures text == NoData <==> |rows| < 2
    ensures |rows| >= 2 ==>
      var times := Times(rows[0]);
      text == Banner(timestamp) + "\n\n" + Join(Summaries(Sections(ReadAll(rows[1..], times)), times), "\n\n")
  {
    if |rows| < 2 then NoData
    else
      var times := Times(rows[0]);
      var days := Days(rows[1..], times);
      GroupIsSections(ReadAll(rows[1..], times));
      var text := Banner(timestamp) + "\n\n" + Join(Summaries(days, times), "\n\n");
      // The banner's opening "**" is kept as a literal of its own so that
      // its first character can be read off here.
      assert text[0] == '*';
      assert NoData[0] == 'N';
      text
  }

  /** The banner is there even when no day has a player. */
  lemma BannerWithoutDays(rows: seq<Row>, timestamp: string)
    requires |rows| >= 2 && Sections(ReadAll(rows[1..], Times(rows[0]))) == []
    ensures BuildWeekMessage(rows, timestamp) == Banner(timestamp) + "\n\n"
  {
  }
}
