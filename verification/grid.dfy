/**
  The grid parser and day grouper: the rows of the sheet are read once,
  time labels come from the header row, a day-marker row opens a new day,
  and every player row becomes a record of per-slot statuses attached to
  the current day.

  The row loop of the digest builder is `Group`, a fold whose state is the current
  day name and the players collected for it. `Sections` is an independent
  description of the same result, one day per marker-delimited segment;
  `GroupIsSections` proves the two agree.
 */
module Grid {
  import opened Wrappers
  import opened Text
  import opened Colors

  /** One cell: its `formattedValue` ("" when absent) and its
      `userEnteredFormat.backgroundColor` (`None` when absent or null). */
  datatype Cell = Cell(text: string, background: Option<Background>)

  /** One row; a row without `values` has an empty sequence of cells. */
  datatype Row = Row(values: seq<Cell>)

  /** A player row: the name in column B and a status per time label. */
  datatype Player = Player(name: string, statuses: map<string, Status>)

  /** A day: the marker text from column A and its players in row order. */
  datatype Day = Day(name: string, players: seq<Player>)

  /** The time labels: the stripped text of the header cells from column C on. */
  function Times(header: Row): seq<string> {
    if |header.values| <= 2 then []
    else seq(|header.values| - 2, i requires 0 <= i < |header.values| - 2 => Strip(header.values[i + 2].text))
  }

  /** The stripped text of column A, or "" when the row is shorter. */
  function DayCell(row: Row): string {
    if |row.values| > 0 then Strip(row.values[0].text) else ""
  }

  /** The stripped text of column B, or "" when the row is shorter. */
  function PlayerName(row: Row): string {
    if |row.values| > 1 then Strip(row.values[1].text) else ""
  }

  /** Column A holds something other than the header captions "dzień:" and "kto:". */
  predicate IsDayMarker(row: Row) {
    var d := DayCell(row);
    d != "" && Lower(d) != "dzień:" && Lower(d) != "kto:"
  }

  /** Column B holds something other than the header captions "kto" and "kto:". */
  predicate IsPlayerRow(row: Row) {
    var p := PlayerName(row);
    p != "" && Lower(p) != "kto" && Lower(p) != "kto:"
  }

  /** Slot `i` is the last slot carrying its label among the slots whose
      column (i + 2) the row reaches. */
  predicate LastReached(times: seq<string>, width: nat, i: nat)
    requires i < |times|
  {
    forall j :: i < j < |times| && j + 2 < width ==> times[j] != times[i]
  }

  /** The statuses of a player row, keyed by time label: the loop over the
      slots writes the classified colour of column i + 2 under label i
      whenever the row reaches that column. */
  function SlotStatuses(values: seq<Cell>, times: seq<string>): map<string, Status>
    decreases |times|
  {
    if times == [] then map[]
    else
      var n := |times| - 1;
      var m := SlotStatuses(values, times[..n]);
      if n + 2 < |values| then m[times[n] := Classify(values[n + 2].background)] else m
  }

  /** A label has an entry exactly when some slot carrying it lies within the
      row; a slot past the end of the row gets none. */
  lemma {:induction false} SlotStatusesDomain(values: seq<Cell>, times: seq<string>, t: string)
    ensures t in SlotStatuses(values, times) <==> exists i :: 0 <= i < |times| && i + 2 < |values| && times[i] == t
    decreases |times|
  {
    if times != [] {
      var n := |times| - 1;
      SlotStatusesDomain(values, times[..n], t);
      if exists i :: 0 <= i < n && i + 2 < |values| && times[..n][i] == t {
        var i :| 0 <= i < n && i + 2 < |values| && times[..n][i] == t;
        assert times[i] == t;
      }
      if exists i :: 0 <= i < |times| && i + 2 < |values| && times[i] == t {
        var i :| 0 <= i < |times| && i + 2 < |values| && times[i] == t;
        if i < n {
          assert times[..n][i] == t;
        }
      }
    }
  }

  /** The entry of a label is the classified colour of the last column that
      carries it and that the row reaches. */
  lemma {:induction false} SlotStatusesValue(values: seq<Cell>, times: seq<string>, i: nat)
    requires i < |times| && i + 2 < |values| && LastReached(times, |values|, i)
    ensures times[i] in SlotStatuses(values, times)
    ensures SlotStatuses(values, times)[times[i]] == Classify(values[i + 2].background)
    decreases |times|
  {
    var n := |times| - 1;
    if i < n {
      assert LastReached(times[..n], |values|, i);
      SlotStatusesValue(values, times[..n], i);
      assert times[..n][i] == times[i];
    }
  }

  function PlayerOf(row: Row, times: seq<string>): Player {
    Player(PlayerName(row), SlotStatuses(row.values, times))
  }

  /** What one row means to the loop: the day it opens, if it is a marker
      row, and the player it names, if it is a player row. */
  datatype Entry = Entry(marker: Option<string>, player: Option<Player>)

  /** Reading one row. A row without cells is skipped by the loop, which is
      the same as a row that opens no day and names no player. A day name is
      never empty. */
  function Read(row: Row, times: seq<string>): (e: Entry)
    ensures e.marker.Some? <==> IsDayMarker(row)
    ensures e.marker.Some? ==> e.marker.value == DayCell(row) && e.marker.value != ""
    ensures e.player.Some? <==> IsPlayerRow(row)
    ensures e.player.Some? ==> e.player.value == PlayerOf(row, times) && e.player.value.name != ""
  {
    if row.values == [] then Entry(None, None)
    else
      Entry(if IsDayMarker(row) then Some(DayCell(row)) else None,
            if IsPlayerRow(row) then Some(PlayerOf(row, times)) else None)
  }

  /** The entries of a run of rows, one per row. */
  function ReadAll(rows: seq<Row>, times: seq<string>): (entries: seq<Entry>)
    ensures |entries| == |rows|
    ensures forall i :: 0 <= i < |rows| ==> entries[i] == Read(rows[i], times)
    decreases |rows|
  {
    if rows == [] then []
    else
      var tail := ReadAll(rows[1..], times);
      assert forall i :: 1 <= i < |rows| ==> rows[i] == rows[1..][i - 1];
      [Read(rows[0], times)] + tail
  }

  /** The player an entry contributes: one record for a player row, none otherwise. */
  function Contribution(e: Entry): seq<Player> {
    if e.player.Some? then [e.player.value] else []
  }

  /** Closing the current day: it is emitted only when it has a (non-empty)
      name and at least one player. */
  function Flush(day: Option<string>, players: seq<Player>): (days: seq<Day>)
    ensures days != [] <==> day.Some? && day.value != "" && players != []
    ensures days != [] ==> days == [Day(day.value, players)]
    ensures forall d :: d in days ==> d.name != "" && d.players != []
  {
    if day.Some? && day.value != "" && players != [] then [Day(day.value, players)] else []
  }

  /** The row loop of the digest builder, over the rows' entries, with its
      state (current day name, players collected so far) as parameters. A
      marker flushes the previous day and starts a new one, and the same row
      may still contribute a player to the new day. */
  function Group(entries: seq<Entry>, day: Option<string>, players: seq<Player>): seq<Day>
    decreases |entries|
  {
    if entries == [] then Flush(day, players)
    else
      var e := entries[0];
      var flushed := if e.marker.Some? then Flush(day, players) else [];
      var day' := if e.marker.Some? then e.marker else day;
      var kept := if e.marker.Some? then [] else players;
      flushed + Group(entries[1..], day', kept + Contribution(e))
  }

  /** The days the loop finds in the rows after the header. */
  function Days(rows: seq<Row>, times: seq<string>): seq<Day> {
    Group(ReadAll(rows, times), None, [])
  }

  /** The players contributed by a run of entries, in order. */
  function PlayersIn(entries: seq<Entry>): seq<Player>
    decreases |entries|
  {
    if entries == [] then [] else Contribution(entries[0]) + PlayersIn(entries[1..])
  }

  /** The index of the first marker, or |entries| when there is none. */
  function FirstMarker(entries: seq<Entry>): (k: nat)
    ensures k <= |entries|
    ensures forall j :: 0 <= j < k ==> entries[j].marker.None?
    ensures k < |entries| ==> entries[k].marker.Some?
    decreases |entries|
  {
    if entries == [] then 0
    else if entries[0].marker.Some? then 0
    else 1 + FirstMarker(entries[1..])
  }

  /** The days of a run of entries, segment by segment: each marker opens a
      segment that runs up to the next marker, its players are those the
      segment contributes (the marker's own row included), and the segment
      yields a day exactly when it has a player. Entries before the first
      marker belong to no segment. */
  function Sections(entries: seq<Entry>): (days: seq<Day>)
    ensures forall d :: d in days ==> d.name != "" && d.players != []
    decreases |entries|
  {
    if entries == [] then []
    else if entries[0].marker.None? then Sections(entries[1..])
    else
      var end := 1 + FirstMarker(entries[1..]);
      Flush(entries[0].marker, PlayersIn(entries[..end])) + Sections(entries[end..])
  }

  lemma {:induction false} PlayersInAppend(a: seq<Entry>, b: seq<Entry>)
    ensures PlayersIn(a + b) == PlayersIn(a) + PlayersIn(b)
    decreases |a|
  {
    if a != [] {
      assert (a + b)[1..] == a[1..] + b;
      PlayersInAppend(a[1..], b);
    } else {
      assert a + b == b;
    }
  }

  /** Entries before the first marker do not change the sections. */
  lemma {:induction false} SectionsSkipPreamble(entries: seq<Entry>)
    ensures Sections(entries) == Sections(entries[FirstMarker(entries)..])
    decreases |entries|
  {
    if entries != [] && entries[0].marker.None? {
      SectionsSkipPreamble(entries[1..]);
      assert entries[1..][FirstMarker(entries[1..])..] == entries[FirstMarker(entries)..];
    }
  }

  lemma HeadSplit<T>(s: seq<T>, k: nat)
    requires 1 <= k <= |s|
    ensures s[..k] == [s[0]] + s[1..][..k - 1]
  {
  }

  lemma AppendAssoc<T>(a: seq<T>, b: seq<T>, c: seq<T>)
    ensures a + (b + c) == a + b + c
  {
  }

  /** The players of the segment starting at the first entry: its own, then
      those of the entries up to the next marker. */
  lemma SegmentPlayers(entries: seq<Entry>)
    requires entries != []
    ensures var e := FirstMarker(entries[1..]);
      PlayersIn(entries[..1 + e]) == Contribution(entries[0]) + PlayersIn(entries[1..][..e])
  {
    var e := FirstMarker(entries[1..]);
    HeadSplit(entries, 1 + e);
    PlayersInAppend([entries[0]], entries[1..][..e]);
  }

  /** One step of the fold over an entry that is not a marker. */
  lemma GroupStepPlain(entries: seq<Entry>, day: Option<string>, acc: seq<Player>)
    requires entries != [] && entries[0].marker.None?
    requires Group(entries[1..], day, acc + Contribution(entries[0]))
          == Flush(day, acc + Contribution(entries[0]) + PlayersIn(entries[1..][..FirstMarker(entries[1..])]))
             + Sections(entries[1..])
    ensures Group(entries, day, acc)
         == Flush(day, acc + PlayersIn(entries[..FirstMarker(entries)])) + Sections(entries)
  {
    var c := Contribution(entries[0]);
    assert Group(entries, day, acc) == [] + Group(entries[1..], day, acc + c);
    SegmentPlayers(entries);
    AppendAssoc(acc, c, PlayersIn(entries[1..][..FirstMarker(entries[1..])]));
  }

  /** One step of the fold over a marker. */
  lemma GroupStepMarker(entries: seq<Entry>, day: Option<string>, acc: seq<Player>)
    requires entries != [] && entries[0].marker.Some?
    requires Group(entries[1..], entries[0].marker, [] + Contribution(entries[0]))
          == Flush(entries[0].marker, [] + Contribution(entries[0]) + PlayersIn(entries[1..][..FirstMarker(entries[1..])]))
             + Sections(entries[1..])
    ensures Group(entries, day, acc)
         == Flush(day, acc + PlayersIn(entries[..FirstMarker(entries)])) + Sections(entries)
  {
    var m := entries[0].marker;
    var c := Contribution(entries[0]);
    var e := FirstMarker(entries[1..]);
    var segment := PlayersIn(entries[..1 + e]);
    SegmentPlayers(entries);
    assert [] + c + PlayersIn(entries[1..][..e]) == segment;
    GroupAtMarker(entries, day, acc);
    SectionsAtMarker(entries);
    NothingBeforeMarker(entries, acc);
  }

  /** The fold at a marker closes the open day and starts the marker's own. */
  lemma GroupAtMarker(entries: seq<Entry>, day: Option<string>, acc: seq<Player>)
    requires entries != [] && entries[0].marker.Some?
    ensures Group(entries, day, acc)
         == Flush(day, acc) + Group(entries[1..], entries[0].marker, [] + Contribution(entries[0]))
  {
  }

  /** At a marker, the open day receives no further players. */
  lemma NothingBeforeMarker(entries: seq<Entry>, acc: seq<Player>)
    requires entries != [] && entries[0].marker.Some?
    ensures acc + PlayersIn(entries[..FirstMarker(entries)]) == acc
  {
    assert entries[..0] == [];
    assert acc + [] == acc;
  }

  /** The sections of entries headed by a marker: the marker's day, when it
      has players, then the sections of the entries after it. */
  lemma SectionsAtMarker(entries: seq<Entry>)
    requires entries != [] && entries[0].marker.Some?
    ensures Sections(entries)
         == Flush(entries[0].marker, PlayersIn(entries[..1 + FirstMarker(entries[1..])])) + Sections(entries[1..])
  {
    var e := FirstMarker(entries[1..]);
    SectionsSkipPreamble(entries[1..]);
    assert entries[1..][e..] == entries[1 + e..];
  }

  /** The fold agrees with the segment description from any state: the day
      still open receives the players of the entries up to the first marker,
      and the rest is the sections of the entries. */
  lemma {:induction false} GroupFromState(entries: seq<Entry>, day: Option<string>, acc: seq<Player>)
    ensures Group(entries, day, acc)
         == Flush(day, acc + PlayersIn(entries[..FirstMarker(entries)])) + Sections(entries)
    decreases |entries|
  {
    if entries == [] {
      assert acc + [] == acc;
    } else if entries[0].marker.None? {
      GroupFromState(entries[1..], day, acc + Contribution(entries[0]));
      GroupStepPlain(entries, day, acc);
    } else {
      GroupFromState(entries[1..], entries[0].marker, [] + Contribution(entries[0]));
      GroupStepMarker(entries, day, acc);
    }
  }

  /** Starting with no day, the fold yields exactly the sections: one day per
      marker segment that has a player, in row order, and players seen
      before the first marker are dropped. */
  lemma GroupIsSections(entries: seq<Entry>)
    ensures Group(entries, None, []) == Sections(entries)
  {
    GroupFromState(entries, None, []);
  }

  /** Entries before the first marker contribute nothing, whatever players they name. */
  lemma {:induction false} PreambleDiscarded(preamble: seq<Entry>, entries: seq<Entry>)
    requires forall j :: 0 <= j < |preamble| ==> preamble[j].marker.None?
    ensures Sections(preamble + entries) == Sections(entries)
    decreases |preamble|
  {
    if preamble != [] {
      assert (preamble + entries)[1..] == preamble[1..] + entries;
      PreambleDiscarded(preamble[1..], entries);
    } else {
      assert preamble + entries == entries;
    }
  }

  /** One step of the fold, whatever the first entry is. */
  lemma GroupUnfold(x: Entry, rest: seq<Entry>, day: Option<string>, acc: seq<Player>)
    ensures Group([x] + rest, day, acc)
         == (if x.marker.Some? then Flush(day, acc) else [])
            + Group(rest, if x.marker.Some? then x.marker else day,
                    (if x.marker.Some? then [] else acc) + Contribution(x))
  {
    assert ([x] + rest)[1..] == rest;
  }

  /** An entry that neither opens a day nor names a player (a blank row, a
      repeated header row) can be removed anywhere, in any loop state,
      without changing the days. */
  lemma {:induction false} InertEntryDropped(pre: seq<Entry>, r: Entry, post: seq<Entry>,
                                             day: Option<string>, acc: seq<Player>)
    requires r.marker.None? && r.player.None?
    ensures Group(pre + [r] + post, day, acc) == Group(pre + post, day, acc)
    decreases |pre|
  {
    if pre == [] {
      assert pre + [r] + post == [r] + post && pre + post == post;
      GroupUnfold(r, post, day, acc);
      assert acc + Contribution(r) == acc;
    } else {
      var x := pre[0];
      var day' := if x.marker.Some? then x.marker else day;
      var acc' := (if x.marker.Some? then [] else acc) + Contribution(x);
      InertEntryDropped(pre[1..], r, post, day', acc');
      assert pre + [r] + post == [x] + (pre[1..] + [r] + post);
      assert pre + post == [x] + (pre[1..] + post);
      GroupUnfold(x, pre[1..] + [r] + post, day, acc);
      GroupUnfold(x, pre[1..] + post, day, acc);
    }
  }

  /** A marker that also names a player puts that player first in the day
      it opens, ahead of the players of the entries that follow it. */
  lemma MarkerJoinsItsOwnDay(x: Entry, rest: seq<Entry>)
    requires x.marker.Some? && x.marker.value != "" && x.player.Some?
    ensures var days := Sections([x] + rest);
      && |days| > 0
      && days[0] == Day(x.marker.value, [x.player.value] + PlayersIn(rest[..FirstMarker(rest)]))
  {
    var entries := [x] + rest;
    assert entries[0] == x && entries[1..] == rest;
    SegmentPlayers(entries);
  }

  /** A row that names both a new day and a player puts that player first in
      the new day, ahead of the players of the rows that follow it. */
  lemma MarkerRowJoinsItsOwnDay(row: Row, rest: seq<Row>, times: seq<string>)
    requires IsDayMarker(row) && IsPlayerRow(row)
    ensures var entries := ReadAll(rest, times);
      var days := Days([row] + rest, times);
      && |days| > 0
      && days[0] == Day(DayCell(row), [PlayerOf(row, times)] + PlayersIn(entries[..FirstMarker(entries)]))
  {
    var x := Read(row, times);
    var entries := ReadAll(rest, times);
    ReadAllCons(row, rest, times);
    GroupIsSections([x] + entries);
    MarkerJoinsItsOwnDay(x, entries);
  }

  lemma ReadAllCons(row: Row, rest: seq<Row>, times: seq<string>)
    ensures ReadAll([row] + rest, times) == [Read(row, times)] + ReadAll(rest, times)
  {
    assert ([row] + rest)[1..] == rest;
  }

  /** Column A holding one of the captions "dzień:" or "kto:", in any
      letter case and with any whitespace around it, opens no day. */
  lemma DayCaptionOpensNoDay(row: Row, times: seq<string>, w1: string, c: string, w2: string)
    requires |row.values| > 0 && row.values[0].text == w1 + c + w2
    requires AllSpace(w1) && AllSpace(w2)
    requires Lower(c) == "dzień:" || Lower(c) == "kto:"
    ensures Read(row, times).marker == None
  {
    CaptionHasBlankFreeEnds(c);
    StripPadded(w1, c, w2);
    assert DayCell(row) == c;
  }

  /** Column B holding one of the captions "kto" or "kto:", in any letter
      case and with any whitespace around it, names no player. */
  lemma PlayerCaptionNamesNoPlayer(row: Row, times: seq<string>, w1: string, c: string, w2: string)
    requires |row.values| > 1 && row.values[1].text == w1 + c + w2
    requires AllSpace(w1) && AllSpace(w2)
    requires Lower(c) == "kto" || Lower(c) == "kto:"
    ensures Read(row, times).player == None
  {
    CaptionHasBlankFreeEnds(c);
    StripPadded(w1, c, w2);
    assert PlayerName(row) == c;
  }

  /** A text that lower-cases to a caption starts and ends with a non-blank
      character, since lower-casing maps blanks to blanks only. */
  lemma CaptionHasBlankFreeEnds(c: string)
    requires Lower(c) == "dzień:" || Lower(c) == "kto:" || Lower(c) == "kto"
    ensures c != [] && !IsSpace(c[0]) && !IsSpace(c[|c| - 1])
  {
    var low := Lower(c);
    assert |low| == |c|;
    assert low[0] == 'd' || low[0] == 'k';
    assert low[|low| - 1] == ':' || low[|low| - 1] == 'o';
    LowerKeepsSpace(c[0]);
    LowerKeepsSpace(c[|c| - 1]);
  }
}
