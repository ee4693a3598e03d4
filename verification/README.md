# bike / Velociraptor ride log, modelled in Dafny

`bike` keeps a log of bike rides in a CSV file, `~/.bikerides`. Each row holds one
ride: timestamp, distance in km, duration in hours, comment and url. The command
line tool (`bike.py`) does the following:

- `add` appends a row;
- `stats` prints totals and the average speed;
- `rides` lists the rides;
- `migrate` rewrites the file;
- `view` opens a ride's url.

Rows are selected by year. The Tk window (`Velociraptor.py`) shows the rides of
one year at a time. It can add, edit and delete rides through a dialog that
checks what was typed.

The model is split into these modules:

- `Digits`: the digit strings of `str(int)`, `strftime` and `strptime`.
- `Floats`: a Python float as a finite decimal, with `str(float)` (`Show`) and
  `float(text)` (`Parse`) as inverses, plus the rounding of a value that is not a
  finite decimal.
- `Timestamps`: the fixed layout `TIMESTR`, with `strftime` (`Format`) and both
  `strptime`s.
- `Csv`: one record in the dialect the log uses (comma, `"`, minimal quoting),
  read as Python's `csv.reader` reads it.
- `DurationParser`: `parse_duration`.
- `RideRecord`: the ride and its row.
- `RideStore`: the year selector; `read_db_file` as a function on the rows
  (`Load`) and as the loop of the original (`RideFile.ReadDbFile`); `add_ride`;
  `migrate`; the store rewrite the GUI calls.
- `Statistics`: sums, guarded speed, comment truncation, running totals.
- `BikeCommands`: the `stats`, `rides` and `view` commands as methods that return
  what would be printed.
- `Velociraptor`: `format_ride`, the graph series, the year list, and the dialog's
  `validate`. The class `Gui` holds the window's state (`rides`, `years`, the
  chosen year, `viewable_rides`) and its `load_data`, `update_rides_view`,
  `change_year`, `del_ride` and `apply`.

Where the code and its documentation disagree, the model follows the code:

- The doc-comment of `parse_duration` promises `HHh` and `HH:`. The code splits
  on a separator that is always present and then converts the empty minutes
  piece, so both are rejected. The one-piece branch is dead
  (`DurationParser.EmptyMinutesRejected`, `DurationParser.SplitAtSeparator`).
- The module docstring describes five columns. `read_db_file` indexes only the
  first five fields, so a row with more fields is read and the extra fields are
  ignored (`RideRecord.ExtraColumnsIgnored`).
- `migrate` reloads with the default selector, so only the current year's rides
  survive the rewrite (`RideStore.MigrateReadsBack`).
- With `year` left at its command-line default (an int), the "No rides for year(s)"
  message raises TypeError when it joins the years. This is modelled as its own
  outcome (`NoRidesTypeError`).
- The GUI loads with `year='all'`. The shown loader then tests `tm_year in 'all'`,
  which raises TypeError on the first ride. So the window can show only an empty
  store (`Velociraptor.LoadDataAsWritten`). The rest of the GUI is modelled as if
  the load had succeeded.
- `_init_rides_view` fills the view for the current year and only afterwards
  selects the latest year present in the combo box, so the two can differ
  (`Velociraptor.Gui.InitRidesView`).
- The speeds of the graph have no zero-duration guard. The model makes a non-zero
  duration a precondition (`Velociraptor.GetGraphData`).

## Model

| member | source | states |
|---|---|---|
| Digits.ValueOfPadded | bike.py:45 | a zero-padded `strftime` field read back by `strptime` is the number written, when it fits the width |
| Digits.PaddedOfValue | bike.py:45 | a digit field that was read and is written back at its width is the same text |
| Digits.ValueOfNatText | Velociraptor.py:26 | `int(str(n))` is `n` for a natural number |
| Floats.Round | bike.py:128 | the float made from a real that is not a finite decimal lies within half a step of 10^-12 of that real |
| Floats.RoundExact | bike.py:128 | a real already on the 10^-12 grid is kept exactly |
| Floats.ParseShow | bike.py:137-139 | `float(str(x)) == x` for every float written to the store |
| Timestamps.ParseFormat | bike.py:202 | `strptime(strftime(t, TIMESTR), TIMESTR)` gives back `t` |
| Timestamps.FormatParse | bike.py:202 | every text the fixed-width reading of `TIMESTR` accepts is exactly what `strftime` writes for the result |
| Timestamps.ParseDateTime | Velociraptor.py:121-122 | `datetime.strptime` accepts exactly the texts `time.strptime` accepts with a second of at most 59, and gives the same value |
| Csv.DecodeEncode | bike.py:135-139 | reading a row that the minimal-quoting writer wrote gives back its fields, including fields holding commas, quotes or `\n` |
| Csv.DecodeBlank | bike.py:200-201 | a blank record has no field |
| DurationParser.Split | bike.py:121 | `str.split(sep)` gives at least one piece and no piece contains the separator |
| DurationParser.JoinSplit | bike.py:121 | joining the pieces of a split with the separator gives back the text |
| DurationParser.SplitJoin | bike.py:121 | splitting a join of separator-free pieces gives back the pieces |
| DurationParser.SplitAtSeparator | bike.py:121-125 | when the separator occurs in the text, the split has at least two pieces, so the one-piece branch is never taken |
| DurationParser.ParseDuration | bike.py:104-129 | the stripped text, when it is a number, is returned unchanged; any other success needs `:` or `h` in the stripped text |
| DurationParser.Hours | bike.py:128 | the result is within rounding distance of `hours + minutes / 60` |
| DurationParser.ParseRejects | bike.py:113 | `float()` rejects a stripped text that contains a character foreign to decimal notation |
| DurationParser.ParsePlainNumber | bike.py:111-113 | `str` of a float is parsed to that same float |
| DurationParser.TwoPieces | bike.py:115-128 | text that is not a number and has exactly one separator is split there, and both pieces are read as floats |
| DurationParser.ParseHoursMinutes | bike.py:115-128 | `H:M` and `HhM`, written with floats H and M, give `H + M/60` rounded |
| DurationParser.EmptyMinutesRejected | bike.py:121-128 | `Hh` and `H:` fail with the ValueError of `float('')`, against the doc-comment at bike.py:107-108 |
| DurationParser.ThreePiecesRejected | bike.py:126-127 | text with more than one separator fails with 'Invalid duration string' |
| DurationParser.NoSeparatorRejected | bike.py:115-120 | text that is not a number and has neither `:` nor `h` fails with 'Invalid duration string' |
| DurationParser.ExamplePlain | bike.py:111-113 | `" 1.5 "` is 1.5 hours |
| DurationParser.ExampleHalfPast | bike.py:115-128 | `"1:30"` and `"1h30"` are 1.5 hours |
| DurationParser.ExampleHoursOnly | bike.py:117-128 | `"1h"` is refused |
| DurationParser.ExampleWord | bike.py:115-120 | `"abc"` is refused as an invalid duration string |
| DurationParser.HoursExample | bike.py:128 | 1 hour plus 30 minutes is exactly 1.5 after rounding |
| RideRecord.RideOfFields | bike.py:202-207 | a ride is read exactly when there are at least five fields, field 0 is a timestamp and fields 1 and 2 are numbers; it then holds those values, fields 3 and 4 verbatim, and its row as id; a failure reports that row |
| RideRecord.DecodeRide | bike.py:200-207 | a row reads as a ride exactly when it is one CSV record of at least five fields whose timestamp and two numbers parse; the ride holds the parsed values, comment and url, and the ride or the error carries the row number |
| RideRecord.DecodeEncodeRide | bike.py:132-139 | the row `add_ride` writes reads back as the same ride, numbered by its row, whatever its comment and url hold apart from `\r` |
| RideRecord.ExtraColumnsIgnored | bike.py:202-207 | fields past the fifth do not change the ride read |
| RideRecord.ShortRowRefused | bike.py:202-206 | a record of fewer than five fields fails to load |
| RideRecord.EncodeIgnoresId | bike.py:137-139 | the id is not written |
| RideStore.SelectionOf | bike.py:192-197 | a falsy `year` selects the current year, an int selects that year, a list selects its members, and a string stays a string |
| RideStore.RowsNumbered | bike.py:201-207 | each row is numbered by its position in the whole file, whether it reads or fails |
| RideStore.LoadIsFilter | bike.py:201-209 | a load with a list of years is the full read filtered by year, or its first error |
| RideStore.FilterMembers | bike.py:208-209 | a ride is kept exactly when it is in the list and its year is selected |
| RideStore.FilterIncreasing | bike.py:208-209 | filtering keeps the ids strictly increasing |
| RideStore.LoadSelected | bike.py:201-209 | the rides loaded have strictly increasing ids; each is the row of the file its id names and has a selected year; every row with a selected year is among them |
| RideStore.LoadFails | bike.py:201-207 | a load fails exactly when some row fails, and reports the first failing row, with no partial list |
| RideStore.LoadWithText | bike.py:196-208 | with a string as selector a non-empty store fails at row 0, and an empty store gives no ride |
| RideStore.RowsAfterAppend | bike.py:134-139 | after an append the earlier rows read as before, and the new row reads as its ride numbered by its position |
| RideStore.LoadAfterAppend | bike.py:132-139 | after `add_ride` a load gives the earlier result, plus the new ride at the end when its year is selected |
| RideStore.PersistRows | bike.py:283-287 | each rewritten row reads back as its ride, renumbered by its new position |
| RideStore.ReadBackPersist | bike.py:280-287 | a rewritten store reads back as the same rides in order, renumbered 0, 1, ... |
| RideStore.MigrateReadsBack | bike.py:276-287 | after `migrate` the store reads back as the current year's rides, in order, renumbered |
| RideStore.MigrateIdempotent | bike.py:276-287 | migrating twice in the same year leaves the same rows as migrating once |
| RideStore.RideFile.constructor | bike.py:44 | the store holds the given rows |
| RideStore.RideFile.AddRide | bike.py:132-139 | exactly one encoded row is appended and the earlier rows are unchanged |
| RideStore.RideFile.ReadDbFile | bike.py:185-210 | the loop returns what `Load` gives for the selector built from `year` |
| RideStore.RideFile.Migrate | bike.py:276-287 | returns the current year's load; on success the store becomes those rides rewritten, on failure it is unchanged |
| RideStore.RideFile.WriteRows | bike.py:280-287 | the truncated file receives one row per ride, in order |
| RideStore.RideFile.UpdateDb | Velociraptor.py:150 | the store is rewritten with the whole list |
| Statistics.SpeedOf | bike.py:224-227 | the speed is `'nan'` exactly when the duration is zero; otherwise the speed times the duration is the distance |
| Statistics.Truncate | bike.py:268-271 | a comment of at most 30 characters is kept; a longer one becomes its first 27 characters and `...`, exactly 30 characters |
| Statistics.AccumulateIsPrefixSums | Velociraptor.py:276-277 | each running total is the sum of the distances up to and including its own |
| Statistics.AccumulateSteps | Velociraptor.py:276-277 | the running total starts at the first value and then adds one value per step |
| Statistics.AccumulateLast | Velociraptor.py:276-277 | the last running total is the total |
| BikeCommands.PrintStats | bike.py:213-230 | a failed load is reported; an empty selection returns before any division; otherwise the totals are the sums of distances and durations, and the speed is their guarded quotient |
| BikeCommands.SumRides | bike.py:219-223 | the loop's totals are the sums of the distances and of the durations |
| BikeCommands.TotalsAfterAdd | bike.py:219-223 | after `add_ride` the totals of a selection grow by the new ride's distance and duration when its year is selected, and are unchanged otherwise |
| BikeCommands.DisplayRide | bike.py:261-273 | the listed id is the stored id; the date is written to the minute; distance and duration are the ride's; the speed is guarded; the comment is kept when it has at most 30 characters and otherwise becomes its first 27 characters and `...`; the url flag is `url != ''` |
| BikeCommands.PrintRides | bike.py:233-273 | a failed load is reported; an empty selection gives the "No rides" outcome; otherwise there is one line per loaded ride, in order |
| BikeCommands.ListLines | bike.py:261-273 | the loop yields one display line per ride, in order |
| BikeCommands.ListedIdsAreRows | bike.py:273 | each listed id is the row of the file the ride was read from |
| BikeCommands.FindRide | bike.py:293-296 | a ride found has the requested id; nothing is found exactly when no ride has that id |
| BikeCommands.FindRideFirst | bike.py:293-295 | the search stops at the first ride with the id |
| BikeCommands.View | bike.py:290-305 | a failed load is reported; no ride with the id gives the "no ride" error; a found ride opens its url, or gives "no URL" when the url is empty |
| BikeCommands.Search | bike.py:293-299 | the `for ... break` loop finds what `FindRide` specifies |
| BikeCommands.ViewFindsRow | bike.py:290-299 | `view N` finds a ride exactly when row N of the file reads as a ride of a selected year, and then finds that ride |
| Velociraptor.FormatRide | Velociraptor.py:18-32 | the id text reads back as the id; the date is the `%Y-%m-%d` prefix; distance and duration are kept; the speed is guarded; the comment is kept untruncated; the url flag is `url != ''` |
| Velociraptor.GetGraphData | Velociraptor.py:275-281 | all three series have one entry per ride in view, and the dates are the rides' timestamps in order; zero durations are excluded by the precondition |
| Velociraptor.Speeds | Velociraptor.py:279-280 | one speed per ride, each the speed the ride list shows for that ride |
| Velociraptor.GraphCumulative | Velociraptor.py:276-277 | the distance series starts at the first distance, adds each ride's distance in turn and ends at the total distance |
| Velociraptor.InsertDescending | Velociraptor.py:264-265 | inserting a year keeps the list strictly descending and adds exactly that year |
| Velociraptor.YearsDescending | Velociraptor.py:264-265 | the year list is strictly descending and holds exactly the years of the rides |
| Velociraptor.DescendingDistinct | Velociraptor.py:264-265 | the year list has no duplicate |
| Velociraptor.Marked | Velociraptor.py:118-137 | a field is marked red exactly when its check fails |
| Velociraptor.Validate | Velociraptor.py:115-140 | the dialog is valid exactly when no field is marked; the values taken are the parsed date, distance and duration and the comment and url as typed; an invalid dialog marks exactly the failing fields |
| Velociraptor.EditFormValidates | Velociraptor.py:74-80 | a dialog prefilled from a ride and accepted unchanged validates to that ride's own values, a leap second excepted |
| Velociraptor.Edited | Velociraptor.py:145-149 | the edited ride keeps its id and takes the five values of the dialog |
| Velociraptor.RideToEdit | Velociraptor.py:340-341 | `self.rides[rideid]` exists exactly when the index is in range, and is the ride at that index |
| Velociraptor.EditFindsShownRide | Velociraptor.py:340-341 | when the list holds every stored row in order, the id read back from a row of the view indexes the ride that row shows |
| Velociraptor.Remove | Velociraptor.py:357 | `pop(i)` removes the ride at index i: one fewer ride, and the others keep their order |
| Velociraptor.DeleteReadsBack | Velociraptor.py:356-358 | after a delete the store reads back as the remaining rides; later rides move down one id |
| Velociraptor.LoadDataAsWritten | Velociraptor.py:263 | `year='all'` becomes a string selector; loading then fails at row 0 unless the store is empty |
| Velociraptor.Gui.constructor | Velociraptor.py:251 | the window starts on the current year with nothing loaded |
| Velociraptor.Gui.LoadData | Velociraptor.py:262-266 | on success `rides` is the load and `years` its descending distinct years; on failure the error is returned and nothing is assigned |
| Velociraptor.Gui.UpdateRidesView | Velociraptor.py:268-273 | the view holds exactly the rides of the chosen year, in their order |
| Velociraptor.Gui.ChangeYear | Velociraptor.py:257-260 | the view shows the chosen year's rides, and the rides and years are unchanged |
| Velociraptor.Gui.InitRidesView | Velociraptor.py:250-255 | on a successful load `rides` and `years` are the load and its descending years, the view is filled for the current year, and then the combo box selects the latest year present, if any; on a failed load the error is returned, the current year is selected and nothing else changes |
| Velociraptor.Gui.DelRide | Velociraptor.py:351-358 | an index in range removes that ride and rewrites the store with the rest; an index out of range changes nothing |
| Velociraptor.Gui.Apply | Velociraptor.py:142-153 | editing overwrites the five values of the ride and rewrites the whole store; adding appends one row and leaves the ride list unchanged |
| Velociraptor.AddedRideReadsBack | Velociraptor.py:152-153 | an added entry reads back as a new last ride, numbered by its row, with the dialog's values |
| Velociraptor.EditReadsBack | Velociraptor.py:143-150 | after an edit the store reads back with the new values in the ride's place and every other ride unchanged |

## Left out

- File I/O: the store is a sequence of records without line terminators. A
  record whose quoted field holds a line break is one element of that sequence;
  a line break outside quotes is an error (`BadRecord`). A missing file, which
  makes `open` raise, is not modelled.
- Newline translation: the file is opened without `newline=''`, so a `\r` inside
  a quoted comment or url is read back as `\n`. The model reads it back
  unchanged; `Csv.DecodeEncode` and `RideRecord.DecodeEncodeRide` match the
  program only for fields without `\r`.
- The `sep` parameter of `read_db_file` is left out. Every caller uses the
  default comma.
- `time.localtime` and `datetime.now` are left out. The current year is a
  parameter (`currentYear`).
- These are left out as I/O or external libraries, not logic:
  - the argparse command line;
  - `add_ride_interactive` and its `input` prompts;
  - `webbrowser.open` (a found url becomes the `Opened` outcome);
  - the pandas Wahoo import;
  - locale setup and translation.
- Printing is left out: `{:8.2f}`, `{:.1f}`, column widths, the header and
  separator lines. The commands return the values they would print.
- Floats are modelled as finite decimals, not binary doubles:
  - `Floats.Show` writes the decimal expansion (`12.0`, `0.6`). It does not model
    Python's shortest round-tripping repr.
  - `Floats.Parse` accepts decimal notation only: no exponent, `inf`, `nan` or
    underscores.
  - Negative zero is not distinguished from zero.
  - Whitespace is the ASCII set, not every Unicode space.
- Float arithmetic: sums and quotients are exact reals.
- Floats.Round: the only rounding modelled is the one in `parse_duration`,
  where `minutes / 60` is not a finite decimal. It rounds to 12 decimal places,
  not to the nearest binary double.
- Timestamps: `strptime`'s calendar check (days per month), its acceptance
  of one-digit fields, and its reading of the space in `TIMESTR` as `\s+` (any
  run of whitespace, such as two spaces or a tab) are left out. The layout is read as fixed-width, zero-padded
  fields.
- The GUI's timestamps are `datetime` objects, while `read_db_file` gives
  `struct_time`. The model uses one timestamp type for both.
- Aliasing is left out: `rides` and `viewable_rides` hold ride values, not shared
  dictionaries. An edit is made on `rides` by index (`Velociraptor.Gui.Apply`).
- Velociraptor.Gui.Apply: the dialog is opened only on a ride taken from
  `rides`, so its index is required to be in range.
- `bike.update_db` and `bike.get_stats` are called by the GUI but are not in
  `bike.py`:
  - `update_db` is modelled as rewriting the whole list (`RideStore.RideFile.UpdateDb`);
  - `get_stats` and the statistics panel are left out.
- After add, edit or delete, the window reloads and redraws (`load_data`,
  `update_rides_view`, graph and statistics). That sequence is left out: each
  step is modelled on its own, and the reload fails as `LoadDataAsWritten` states.
- The dialog prefills its distance and duration fields with `str` of the floats,
  which the Tk `Entry.insert` does. That is assumed, not modelled
  (`Velociraptor.EditForm`).
- Widgets, focus, scrollbars and matplotlib plotting are left out, and so is
  `gui.py`.
