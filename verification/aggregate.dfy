/**
  The day aggregator: for every time slot of a day, the statuses of the
  day's players are collected in a table keyed by player name, counted per
  status, and judged by a fixed two-branch rule; each slot that passes
  yields one line of the day's section.
 */
module Aggregate {
  import opened Text
  import opened Colors
  import opened Grid

  /** A player's status at a slot; a label without an entry reads as `Unknown`. */
  function StatusAt(p: Player, t: string): Status {
    if t in p.statuses then p.statuses[t] else Unknown
  }

  /** A slot whose column the player's row does not reach reads as `Unknown`
      (unless another slot with the same label is reached). */
  lemma UnreachedSlotIsUnknown(row: Row, times: seq<string>, t: string)
    requires forall i :: 0 <= i < |times| && times[i] == t ==> i + 2 >= |row.values|
    ensures StatusAt(PlayerOf(row, times), t) == Unknown
  {
    SlotStatusesDomain(row.values, times, t);
  }

  /** A slot the row reaches reads as the classified colour of its cell. */
  lemma ReachedSlotIsClassified(row: Row, times: seq<string>, i: nat)
    requires i < |times| && i + 2 < |row.values| && LastReached(times, |row.values|, i)
    ensures StatusAt(PlayerOf(row, times), times[i]) == Classify(row.values[i + 2].background)
  {
    SlotStatusesValue(row.values, times, i);
  }

  /** The names of the players, as a set. */
  function Names(players: seq<Player>): set<string>
    decreases |players|
  {
    if players == [] then {}
    else Names(players[..|players| - 1]) + {players[|players| - 1].name}
  }

  predicate DistinctNames(players: seq<Player>) {
    forall i, j :: 0 <= i < j < |players| ==> players[i].name != players[j].name
  }

  /** No later player carries the name of player `i`. */
  predicate LastWithName(players: seq<Player>, i: nat)
    requires i < |players|
  {
    forall j :: i < j < |players| ==> players[j].name != players[i].name
  }

  /** The table of one slot: every player's status under the player's name,
      filled in player order, so that of two players with one name the later
      one's status stands. */
  function SlotTable(players: seq<Player>, t: string): map<string, Status>
    decreases |players|
  {
    if players == [] then map[]
    else
      var n := |players| - 1;
      SlotTable(players[..n], t)[players[n].name := StatusAt(players[n], t)]
  }

  /** The table has one entry per distinct name, holding the status of the
      last player with that name. */
  lemma {:induction false} SlotTableContents(players: seq<Player>, t: string)
    ensures SlotTable(players, t).Keys == Names(players)
    ensures forall i :: 0 <= i < |players| && LastWithName(players, i) ==>
              && players[i].name in SlotTable(players, t)
              && SlotTable(players, t)[players[i].name] == StatusAt(players[i], t)
    decreases |players|
  {
    if players != [] {
      var n := |players| - 1;
      var init := players[..n];
      SlotTableContents(init, t);
      forall i | 0 <= i < |players| && LastWithName(players, i)
        ensures players[i].name in SlotTable(players, t)
        ensures SlotTable(players, t)[players[i].name] == StatusAt(players[i], t)
      {
        if i < n {
          assert players[n].name != players[i].name;
          assert init[i] == players[i];
          assert LastWithName(init, i);
        }
      }
    }
  }

  /** How many entries of the table hold status `s` (Python's
      `list(table.values()).count(s)`). */
  function Count(m: map<string, Status>, s: Status): nat {
    |set n | n in m.Keys && m[n] == s|
  }

  /** The same count taken over the players themselves. */
  function CountPlayers(players: seq<Player>, t: string, s: Status): nat
    decreases |players|
  {
    if players == [] then 0
    else
      var n := |players| - 1;
      CountPlayers(players[..n], t, s) + (if StatusAt(players[n], t) == s then 1 else 0)
  }

  /** The four counts of one slot. */
  datatype Tally = Tally(available: nat, tentative: nat, unavailable: nat, unknown: nat)

  function TallyOf(m: map<string, Status>): Tally {
    Tally(Count(m, Available), Count(m, Tentative), Count(m, Unavailable), Count(m, Unknown))
  }

  function SlotTally(players: seq<Player>, t: string): Tally {
    TallyOf(SlotTable(players, t))
  }

  /** Every entry holds exactly one of the four statuses, so the counts add
      up to the number of entries. */
  lemma CountsPartitionTable(m: map<string, Status>)
    ensures Count(m, Available) + Count(m, Tentative) + Count(m, Unavailable) + Count(m, Unknown) == |m|
  {
    var a := set n | n in m.Keys && m[n] == Available;
    var b := set n | n in m.Keys && m[n] == Tentative;
    var c := set n | n in m.Keys && m[n] == Unavailable;
    var d := set n | n in m.Keys && m[n] == Unknown;
    assert a * b == {} && (a + b) * c == {} && (a + b + c) * d == {};
    assert |a + b| == |a| + |b|;
    assert |a + b + c| == |a + b| + |c|;
    assert |a + b + c + d| == |a + b + c| + |d|;
    assert a + b + c + d == m.Keys;
  }

  /** At most one name per player, and exactly one per player when the names
      are pairwise distinct. */
  lemma {:induction false} NamesCardinality(players: seq<Player>)
    ensures |Names(players)| <= |players|
    ensures |Names(players)| == |players| <==> DistinctNames(players)
    decreases |players|
  {
    if players != [] {
      var n := |players| - 1;
      var init := players[..n];
      NamesCardinality(init);
      assert forall i :: 0 <= i < n ==> init[i] == players[i];
      NameInNames(init, players[n].name);
      if players[n].name in Names(init) {
        assert Names(players) == Names(init);
        var i :| 0 <= i < n && init[i].name == players[n].name;
        assert !DistinctNames(players) by {
          assert players[i].name == players[n].name;
        }
      } else {
        assert |Names(players)| == |Names(init)| + 1;
        if DistinctNames(players) {
          assert DistinctNames(init);
        }
        if DistinctNames(init) {
          assert DistinctNames(players);
        }
      }
    }
  }

  /** A name is among the names exactly when some player carries it. */
  lemma {:induction false} NameInNames(players: seq<Player>, name: string)
    ensures name in Names(players) <==> exists i :: 0 <= i < |players| && players[i].name == name
    decreases |players|
  {
    if players != [] {
      var n := |players| - 1;
      var init := players[..n];
      NameInNames(init, name);
      assert forall i :: 0 <= i < n ==> init[i] == players[i];
    }
  }

  /** With pairwise distinct names the table counts are the player counts. */
  lemma {:induction false} CountsMatchPlayers(players: seq<Player>, t: string, s: Status)
    requires DistinctNames(players)
    ensures Count(SlotTable(players, t), s) == CountPlayers(players, t, s)
    decreases |players|
  {
    if players != [] {
      var n := |players| - 1;
      var init := players[..n];
      assert DistinctNames(init) by {
        assert forall i :: 0 <= i < n ==> init[i] == players[i];
      }
      CountsMatchPlayers(init, t, s);
      var m := SlotTable(init, t);
      var name := players[n].name;
      SlotTableContents(init, t);
      NameInNames(init, name);
      assert name !in m by {
        assert forall i :: 0 <= i < n ==> init[i].name == players[i].name;
      }
      CountAfterFreshEntry(m, name, StatusAt(players[n], t), s);
    }
  }

  /** Adding an entry under a new name raises the count of its status by one
      and leaves the other counts alone. */
  lemma CountAfterFreshEntry(m: map<string, Status>, name: string, v: Status, s: Status)
    requires name !in m
    ensures Count(m[name := v], s) == Count(m, s) + (if v == s then 1 else 0)
  {
    var m' := m[name := v];
    var before := set k | k in m.Keys && m[k] == s;
    var after := set k | k in m'.Keys && m'[k] == s;
    if v == s {
      assert after == before + {name};
    } else {
      assert after == before;
    }
  }

  /** Tally conservation: at every slot the four counts add up to the number
      of distinct player names, which is the number of players exactly when
      no two players share a name. */
  lemma TallyConservation(players: seq<Player>, t: string)
    ensures var c := SlotTally(players, t);
      c.available + c.tentative + c.unavailable + c.unknown == |Names(players)|
    ensures var c := SlotTally(players, t);
      c.available + c.tentative + c.unavailable + c.unknown == |players| <==> DistinctNames(players)
  {
    SlotTableContents(players, t);
    CountsPartitionTable(SlotTable(players, t));
    NamesCardinality(players);
  }

  /** The outcome of the slot rule. */
  datatype Verdict = AllAvailable | TwoAndOneTentative | NotListed

  /** The rule, checked in order: everybody available; otherwise exactly two
      available and exactly one tentative, whatever the total. */
  function Judge(c: Tally, total: nat): Verdict {
    if c.available == total then AllAvailable
    else if c.available == 2 && c.tentative == 1 then TwoAndOneTentative
    else NotListed
  }

  function SlotVerdict(players: seq<Player>, t: string): Verdict {
    Judge(SlotTally(players, t), |players|)
  }

  /** "All available" is reported exactly when the names are distinct and
      every player is available at the slot; with a repeated name it can
      never be reported, since the table then has fewer entries than players. */
  lemma AllAvailableIffEveryone(players: seq<Player>, t: string)
    ensures SlotVerdict(players, t) == AllAvailable <==>
      DistinctNames(players) && forall i :: 0 <= i < |players| ==> StatusAt(players[i], t) == Available
  {
    var m := SlotTable(players, t);
    TallyConservation(players, t);
    SlotTableContents(players, t);
    NamesCardinality(players);
    if DistinctNames(players) {
      CountsMatchPlayers(players, t, Available);
      CountAllIff(players, t, Available);
    } else {
      CountsPartitionTable(m);
    }
  }

  /** A player count equals the number of players exactly when every player has that status. */
  lemma {:induction false} CountAllIff(players: seq<Player>, t: string, s: Status)
    ensures CountPlayers(players, t, s) <= |players|
    ensures CountPlayers(players, t, s) == |players| <==> forall i :: 0 <= i < |players| ==> StatusAt(players[i], t) == s
    decreases |players|
  {
    if players != [] {
      var n := |players| - 1;
      var init := players[..n];
      CountAllIff(init, t, s);
      assert forall i :: 0 <= i < n ==> init[i] == players[i];
    }
  }

  /** With distinct names the second branch fires exactly when two players are
      available and one is tentative, for any number of players: such a slot
      is never also "all available". */
  lemma TwoAndOneIffCounts(players: seq<Player>, t: string)
    requires DistinctNames(players)
    ensures SlotVerdict(players, t) == TwoAndOneTentative <==>
      CountPlayers(players, t, Available) == 2 && CountPlayers(players, t, Tentative) == 1
  {
    CountsMatchPlayers(players, t, Available);
    CountsMatchPlayers(players, t, Tentative);
    TallyConservation(players, t);
    NamesCardinality(players);
  }

  /** The rule's precedence on three and five players. */
  lemma JudgeExamples()
    ensures Judge(Tally(3, 0, 0, 0), 3) == AllAvailable
    ensures Judge(Tally(2, 1, 0, 0), 3) == TwoAndOneTentative
    ensures Judge(Tally(2, 0, 1, 0), 3) == NotListed
    ensures Judge(Tally(2, 1, 2, 0), 5) == TwoAndOneTentative
  {
  }

  const GoodSlot := "✅ Grane!"

  /** The line of a slot that passes the rule. */
  function SlotLine(t: string, v: Verdict, total: nat): string
    requires v != NotListed
  {
    var summary :=
      if v == AllAvailable then GoodSlot
      else "⚠️ Możliwe granie? (2/" + Decimal(total) + ", 1 być może)";
    "**" + t + "** — " + summary
  }

  /** The line a single slot contributes: one when it passes the rule, none otherwise. */
  function LineOf(t: string, players: seq<Player>): seq<string> {
    var v := SlotVerdict(players, t);
    if v == NotListed then [] else [SlotLine(t, v, |players|)]
  }

  /** The lines of the slots that pass the rule, in slot order. */
  function SlotLines(times: seq<string>, players: seq<Player>): seq<string>
    decreases |times|
  {
    if times == [] then []
    else
      var n := |times| - 1;
      SlotLines(times[..n], players) + LineOf(times[n], players)
  }

  /** At most one line per slot. */
  lemma {:induction false} SlotLinesCount(times: seq<string>, players: seq<Player>)
    ensures |SlotLines(times, players)| <= |times|
    decreases |times|
  {
    if times != [] {
      SlotLinesCount(times[..|times| - 1], players);
    }
  }

  /** No line at all exactly when no slot passes the rule. */
  lemma {:induction false} SlotLinesEmptyIff(times: seq<string>, players: seq<Player>)
    ensures SlotLines(times, players) == [] <==>
      forall i :: 0 <= i < |times| ==> SlotVerdict(players, times[i]) == NotListed
    decreases |times|
  {
    if times != [] {
      var n := |times| - 1;
      var init := times[..n];
      SlotLinesEmptyIff(init, players);
      SlotLinesUnfold(times, players);
      if SlotLines(times, players) == [] {
        forall i | 0 <= i < |times|
          ensures SlotVerdict(players, times[i]) == NotListed
        {
          if i < n {
            assert times[i] == init[i];
          }
        }
      }
    }
  }

  /** The line of a passing slot opens with the slot's label in bold. */
  lemma SlotLineOpensWithLabel(t: string, v: Verdict, total: nat)
    requires v != NotListed
    ensures "**" + t + "**" <= SlotLine(t, v, total)
  {
    var summary :=
      if v == AllAvailable then GoodSlot
      else "⚠️ Możliwe granie? (2/" + Decimal(total) + ", 1 być może)";
    assert SlotLine(t, v, total) == ("**" + t + "**") + (" — " + summary);
  }

  /** `line` is the line of a passing slot among `times`, and opens with that
      slot's label in bold. */
  predicate FromPassingSlot(line: string, times: seq<string>, players: seq<Player>) {
    exists i :: 0 <= i < |times| && IsLineOfSlot(line, times[i], players)
  }

  predicate IsLineOfSlot(line: string, t: string, players: seq<Player>) {
    && SlotVerdict(players, t) != NotListed
    && line == SlotLine(t, SlotVerdict(players, t), |players|)
    && "**" + t + "**" <= line
  }

  /** Every line is the line of some passing slot, and so opens with that
      slot's label in bold. */
  lemma {:induction false} SlotLinesLabelled(times: seq<string>, players: seq<Player>)
    ensures forall j :: 0 <= j < |SlotLines(times, players)| ==>
      FromPassingSlot(SlotLines(times, players)[j], times, players)
    decreases |times|
  {
    if times != [] {
      var n := |times| - 1;
      var init := SlotLines(times[..n], players);
      var lines := SlotLines(times, players);
      SlotLinesLabelled(times[..n], players);
      assert lines == init + LineOf(times[n], players);
      forall j | 0 <= j < |lines|
        ensures FromPassingSlot(lines[j], times, players)
      {
        if j < |init| {
          assert FromPassingSlot(init[j], times[..n], players);
          var i :| 0 <= i < n && IsLineOfSlot(init[j], times[..n][i], players);
          assert times[..n][i] == times[i];
          assert lines[j] == init[j];
        } else {
          SlotLineOpensWithLabel(times[n], SlotVerdict(players, times[n]), |players|);
          assert IsLineOfSlot(lines[j], times[n], players);
        }
      }
    }
  }

  /** Every line opens with "**". */
  lemma SlotLinesOpenBold(times: seq<string>, players: seq<Player>)
    ensures forall j :: 0 <= j < |SlotLines(times, players)| ==> "**" <= SlotLines(times, players)[j]
  {
    SlotLinesLabelled(times, players);
    forall j | 0 <= j < |SlotLines(times, players)|
      ensures "**" <= SlotLines(times, players)[j]
    {
      var line := SlotLines(times, players)[j];
      var i :| 0 <= i < |times| && IsLineOfSlot(line, times[i], players);
      assert line[..2] == ("**" + times[i] + "**")[..2];
    }
  }

  /** The lines of two runs of slots are the lines of the first followed by
      those of the second: one line per passing slot, in slot order. */
  lemma {:induction false} SlotLinesAppend(a: seq<string>, b: seq<string>, players: seq<Player>)
    ensures SlotLines(a + b, players) == SlotLines(a, players) + SlotLines(b, players)
    decreases |b|
  {
    if b == [] {
      assert a + b == a;
    } else {
      SlotLinesAppend(a, b[..|b| - 1], players);
      SlotLinesAppendStep(a, b, players);
    }
  }

  lemma SlotLinesAppendStep(a: seq<string>, b: seq<string>, players: seq<Player>)
    requires b != []
    requires SlotLines(a + b[..|b| - 1], players) == SlotLines(a, players) + SlotLines(b[..|b| - 1], players)
    ensures SlotLines(a + b, players) == SlotLines(a, players) + SlotLines(b, players)
  {
    var n := |b| - 1;
    var ab := a + b;
    assert ab[..|ab| - 1] == a + b[..n];
    assert ab[|ab| - 1] == b[n];
    SlotLinesUnfold(ab, players);
    SlotLinesUnfold(b, players);
    AppendAssoc(SlotLines(a, players), SlotLines(b[..n], players), LineOf(b[n], players));
  }

  lemma SlotLinesUnfold(times: seq<string>, players: seq<Player>)
    requires times != []
    ensures SlotLines(times, players)
         == SlotLines(times[..|times| - 1], players) + LineOf(times[|times| - 1], players)
  {
  }

  function DayHeader(name: string): string {
    "__" + name + "__"
  }

  function NoSlotsSection(name: string): string {
    DayHeader(name) + "\n(no good common slots)"
  }

  /** `process_day`: the day's header, then one line per passing slot; a day
      with no passing slot keeps its header and a placeholder line. */
  function ProcessDay(day: Day, times: seq<string>): (text: string)
    ensures DayHeader(day.name) <= text
    ensures text == NoSlotsSection(day.name) <==>
      forall i :: 0 <= i < |times| ==> SlotVerdict(day.players, times[i]) == NotListed
  {
    var header := DayHeader(day.name);
    SlotLinesEmptyIff(times, day.players);
    SlotLinesOpenBold(times, day.players);
    var messages := [header] + SlotLines(times, day.players);
    if |messages| == 1 then NoSlotsSection(day.name)
    else
      var text := Join(messages, "\n");
      assert text == header + "\n" + Join(messages[1..], "\n");
      JoinStartsWithFirst(messages[1..], "\n");
      assert text[|header| + 1] == '*';
      assert NoSlotsSection(day.name)[|header| + 1] == '(';
      text
  }
}
