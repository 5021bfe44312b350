# Gaming availability digest — a Dafny model

This project models the decision engine of a small bot. The bot reads a weekly
availability sheet in which each player colours their time-slot cells green
(available), yellow (tentative), red (unavailable) or leaves them white
(unknown). From that sheet it writes a text digest of the slots where a game
can happen. The model covers the engine's three parts:

- **Colour classifier** (`colors.dfy`, module `Colors`). A cell's background
  colour is completed with 1.0 for every missing channel. It is then mapped
  to the status whose reference colour is nearest. The scan keeps the first
  reference it meets on a tie, because it only replaces the best match on a
  strictly smaller distance. Channels are `real`, and distances are compared
  squared; the square root is monotone, so the nearest reference is the same.
- **Grid parser and day grouper** (`grid.dfy`, module `Grid`).
  - `Read` turns each row into an `Entry`: the day the row opens, if it is
    a marker row, and the player it names, if it is a player row
    (gaming_availability.py:77-97).
  - `Flush` is the `if day_name and players` guard that emits the open day
    (gaming_availability.py:87-88 and 110-111).
  - `Group` is the single pass over the rows, written as a fold over the
    entries whose state is the current day name and the players collected
    so far.
  - `Sections` describes the same result independently: one day per
    marker-delimited segment that has a player.
  - `GroupIsSections` proves that the two agree.
- **Day aggregator** (`aggregate.dfy`, module `Aggregate`). For each slot, the
  players' statuses go into a table keyed by player name. The table is
  counted per status and judged by the two-branch rule. Each slot that
  passes yields one line, in slot order.
- **Week message** (`digest.dfy`, module `Digest`). This is the whole pipeline
  from the rows to the posted text. The generation time stamp is a parameter.

`text.dfy` (module `Text`) holds the string operations the engine relies on:
strip, lower-casing, join and decimal rendering. `wrappers.dfy` holds `Option`.

The model follows the code as written:
- Consecutive passing slots are **not** merged into time ranges. Every
  passing slot gets its own line.
- A day whose slots all fail the rule is **not** omitted. It renders as its
  header followed by the placeholder line `(no good common slots)`, even
  though a comment at that point in the code speaks of skipping the day.
- Once the sheet has at least two rows, the week message opens with its
  banner line, even when no day has a player.

## Model

| member | source | states |
|---|---|---|
| Colors.Rank | gaming_availability.py:27-32 | every status has a place in the reference table, and that entry carries the status |
| Colors.Classify | gaming_availability.py:48-61 | the result is one of the four table keys, and its reference colour is nearest to the normalised background; every earlier entry is strictly farther |
| Colors.Scan | gaming_availability.py:50-57 | continuing the loop from any state satisfying the scan invariant ends at the nearest reference, ties going to the earliest entry |
| Colors.NearestIsUnique | gaming_availability.py:53-57 | the strict comparison makes the nearest-with-ties-to-earliest reference unique |
| Colors.ClassifyCharacterized | gaming_availability.py:48-61 | the classification is `s` if and only if `s`'s reference is the nearest one in that sense |
| Colors.TieGoesToEarlier | gaming_availability.py:53-57 | when two references are at equal distance, the later one is never returned |
| Colors.HalfwayGreenYellowIsAvailable | gaming_availability.py:53-57 | every colour as far from green as from yellow, and no farther from them than from red and white, is available |
| Colors.CornerDistance | gaming_availability.py:41-46 | between two colours with 0/1 channels, the squared distance counts the channels that differ |
| Colors.ReferenceClassifiesAsItself | gaming_availability.py:27-57 | each reference colour classifies as its own status |
| Colors.MissingBackgroundIsUnknown | gaming_availability.py:34-49 | no background, or a background with no channels, reads as white and hence as unknown |
| Text.Strip | gaming_availability.py:69 | the result is a stretch of the input with only whitespace before and after it; it is empty exactly when the input is all whitespace, and otherwise starts and ends with non-whitespace |
| Text.StripPadded | gaming_availability.py:69 | a text padded with whitespace on both sides strips back to its core |
| Text.Decimal | gaming_availability.py:142 | the rendering of a count is a non-empty run of digits with no leading zero |
| Text.DecimalRoundTrip | gaming_availability.py:142 | reading the rendered count back gives the count |
| Text.DecimalInjective | gaming_availability.py:142 | different totals render differently |
| Grid.SlotStatusesDomain | gaming_availability.py:100-106 | a player's map has an entry for a label exactly when some slot with that label lies within the row |
| Grid.SlotStatusesValue | gaming_availability.py:100-106 | the entry is the classified colour of the last reached column carrying that label |
| Grid.FirstMarker | gaming_availability.py:85 | the index of the first day marker: no entry before it is a marker |
| Grid.Sections | gaming_availability.py:84-111 | every emitted day has a non-empty name and at least one player |
| Grid.GroupFromState | gaming_availability.py:76-111 | from any loop state, the fold emits the open day with the players up to the next marker, then the sections of the entries |
| Grid.GroupIsSections | gaming_availability.py:72-111 | from the initial state, the row loop yields exactly one day per marker segment that has a player, in row order, the last segment included |
| Grid.PreambleDiscarded | gaming_availability.py:73-90 | entries before the first marker change nothing, whatever players they name |
| Grid.InertEntryDropped | gaming_availability.py:76-97 | removing a row that is neither a marker nor a player row, from any position and in any loop state, leaves the result unchanged |
| Grid.MarkerJoinsItsOwnDay | gaming_availability.py:84-107 | a marker that also names a player puts that player first in the day it opens |
| Grid.MarkerRowJoinsItsOwnDay | gaming_availability.py:84-107 | the same for a sheet row that is both a marker row and a player row, through the whole loop |
| Grid.DayCaptionOpensNoDay | gaming_availability.py:81-85 | column A holding "dzień:" or "kto:", in any letter case and with any surrounding whitespace, opens no day |
| Grid.PlayerCaptionNamesNoPlayer | gaming_availability.py:82-97 | column B holding "kto" or "kto:", in any letter case and with any surrounding whitespace, names no player |
| Aggregate.UnreachedSlotIsUnknown | gaming_availability.py:100-124 | a label none of whose slots the row reaches counts as unknown for that player |
| Aggregate.ReachedSlotIsClassified | gaming_availability.py:100-124 | a reached slot that is the last reached slot with its label counts as the classified colour of its cell |
| Aggregate.SlotTableContents | gaming_availability.py:119-124 | the slot table has one entry per distinct name, holding the status of the last player with that name |
| Aggregate.CountsPartitionTable | gaming_availability.py:128-134 | the four counts add up to the number of table entries |
| Aggregate.NamesCardinality | gaming_availability.py:118-124 | there are at most as many names as players, and exactly as many if and only if the names are distinct |
| Aggregate.CountsMatchPlayers | gaming_availability.py:119-134 | with distinct names, each table count equals the number of players with that status |
| Aggregate.CountAfterFreshEntry | gaming_availability.py:124-134 | a new name raises the count of its own status by one and leaves the others alone |
| Aggregate.TallyConservation | gaming_availability.py:118-134 | at every slot the four counts sum to the number of distinct names, and to the number of players if and only if the names are distinct |
| Aggregate.CountAllIff | gaming_availability.py:129-137 | a per-player count reaches the number of players if and only if every player has that status |
| Aggregate.AllAvailableIffEveryone | gaming_availability.py:118-139 | a slot is "all available" if and only if the names are distinct and every player is available there |
| Aggregate.TwoAndOneIffCounts | gaming_availability.py:136-143 | with distinct names, the "possible" branch fires if and only if exactly two players are available and exactly one is tentative, for any total |
| Aggregate.JudgeExamples | gaming_availability.py:136-143 | the precedence of the rule on three and five players |
| Aggregate.SlotLinesCount | gaming_availability.py:127-143 | at most one line per slot |
| Aggregate.SlotLinesEmptyIff | gaming_availability.py:127-143 | no line at all if and only if no slot passes the rule |
| Aggregate.SlotLineOpensWithLabel | gaming_availability.py:139-143 | the line of a passing slot opens with the slot's label in bold |
| Aggregate.SlotLinesLabelled | gaming_availability.py:127-143 | every line is the line of some passing slot, with that slot's verdict and the day's total, and opens with that slot's label in bold |
| Aggregate.SlotLinesAppend | gaming_availability.py:127-143 | the lines of two runs of slots are the first run's lines followed by the second's, so lines follow slot order |
| Aggregate.ProcessDay | gaming_availability.py:116-149 | a day's section opens with its `__day__` header and is exactly the placeholder section if and only if no slot passes |
| Digest.BuildWeekMessage | gaming_availability.py:63-114 | fewer than two rows give exactly the no-data text, and only they do; otherwise the banner, a blank line and the sections of the marker segments, joined by blank lines |
| Digest.BannerWithoutDays | gaming_availability.py:113-114 | with no day found, the message is the banner followed by a blank line |

## Left out

- Fetching the sheet is network I/O and is not modelled: the service-account credentials, the API call, and the spreadsheet id and range from the environment (gaming_availability.py:1-25). The rows are the model's input. A missing `rowData` is modelled as the empty sequence of rows.
- The generation time is not modelled. `datetime.now` is replaced by the `timestamp` parameter of `Digest.BuildWeekMessage`.
- `main` and its printing are process wiring and are not modelled (gaming_availability.py:152-159).
- Floating point and `math.sqrt` are not modelled. Channels are exact reals and distances are compared squared. NaN or infinite channels are not represented.
- A `userEnteredFormat` or `backgroundColor` that is present but null is treated like an absent one. In the source a null `userEnteredFormat` would raise an error.
- Text.Strip: whitespace is the ASCII set (space, tab through carriage return, and the four information separators). Python's Unicode whitespace outside ASCII is not modelled.
- Text.Lower: lower-cases ASCII letters and the Polish capitals only, which is all the captions "dzień:", "kto" and "kto:" need. Other Unicode case mappings are not modelled.
- Aggregate.ProcessDay: its contract fixes the header and the placeholder case. The lines of a day with passing slots are stated by Aggregate.SlotLinesLabelled, Aggregate.SlotLinesEmptyIff and Aggregate.SlotLinesAppend rather than by this contract.
- The emoji and Polish wording of the output lines are string constants taken as they are. Nothing is proved about their characters beyond the bold label that opens each line.
