/**
 * One ride and its stored row: `add_ride` (bike.py:132-139) writes the five
 * columns timestamp, distance, duration, comment and url; `read_db_file`
 * (bike.py:201-207) reads them back into a ride numbered by its row.
 */
module RideRecord {
  import opened Results
  import Floats
  import Timestamps
  import Csv

  /** The ride dictionary of `read_db_file`: `id` is the row it was read from. */
  datatype Ride = Ride(
    id: nat,
    timestamp: Timestamps.Stamp,
    distance: Floats.Float,
    duration: Floats.Float,
    comment: string,
    url: string)

  /** The five columns `add_ride` writes, in order: the timestamp in `TIMESTR`
      layout, `str` of both numbers, then comment and url verbatim. */
  function Columns(timestamp: Timestamps.Stamp, distance: Floats.Float, duration: Floats.Float,
                   comment: string, url: string): (cols: seq<string>)
    ensures |cols| == 5
  {
    [Timestamps.Format(timestamp), Floats.Show(distance), Floats.Show(duration), comment, url]
  }

  /** The row `add_ride` writes (without its line terminator). */
  function EncodeRow(timestamp: Timestamps.Stamp, distance: Floats.Float, duration: Floats.Float,
                     comment: string, url: string): string
  {
    Csv.Encode(Columns(timestamp, distance, duration, comment, url))
  }

  /** The row a ride is written as; its id is not stored. */
  function EncodeRide(r: Ride): string {
    EncodeRow(r.timestamp, r.distance, r.duration, r.comment, r.url)
  }

  /** Why reading a row fails, and the exception Python raises for it. */
  datatype ErrorKind =
    | MissingField   // IndexError: the row has fewer than five fields
    | BadTimestamp   // ValueError from time.strptime
    | BadNumber      // ValueError from float()
    | BadRecord      // csv.Error: a line break inside an unquoted field
    | NotAYear       // TypeError: the year selector is a string

  /** The row (counted from 0 over the whole file) where reading stopped. */
  datatype LoadError = LoadError(kind: ErrorKind, row: nat)

  /** Builds the ride dictionary of bike.py:202-207 from the fields of row `row`,
      in Python's evaluation order: field 0 and its timestamp, field 1 and its
      number, field 2 and its number, then fields 3 and 4. Fields past the fifth
      are ignored. */
  function RideOfFields(f: seq<string>, row: nat): (r: Result<Ride, LoadError>)
    ensures r.Ok? <==> |f| >= 5 && Timestamps.Parse(f[0]).Some?
                       && Floats.Parse(f[1]).Some? && Floats.Parse(f[2]).Some?
    ensures r.Ok? ==> r.value == Ride(row, Timestamps.Parse(f[0]).value,
                                      Floats.Parse(f[1]).value, Floats.Parse(f[2]).value, f[3], f[4])
    ensures r.Err? ==> r.error.row == row
  {
    if |f| < 1 then Err(LoadError(MissingField, row))
    else match Timestamps.Parse(f[0])
    case None => Err(LoadError(BadTimestamp, row))
    case Some(t) =>
      if |f| < 2 then Err(LoadError(MissingField, row))
      else match Floats.Parse(f[1])
      case None => Err(LoadError(BadNumber, row))
      case Some(distance) =>
        if |f| < 3 then Err(LoadError(MissingField, row))
        else match Floats.Parse(f[2])
        case None => Err(LoadError(BadNumber, row))
        case Some(duration) =>
          if |f| < 5 then Err(LoadError(MissingField, row))
          else Ok(Ride(row, t, distance, duration, f[3], f[4]))
  }

  /** Reads row number `row` of the store. */
  function DecodeRide(line: string, row: nat): (r: Result<Ride, LoadError>)
    ensures r.Ok? <==>
      && Csv.Decode(line).Some?
      && var f := Csv.Decode(line).value;
         |f| >= 5 && Timestamps.Parse(f[0]).Some? && Floats.Parse(f[1]).Some? && Floats.Parse(f[2]).Some?
    ensures r.Ok? ==>
      var f := Csv.Decode(line).value;
      r.value == Ride(row, Timestamps.Parse(f[0]).value, Floats.Parse(f[1]).value, Floats.Parse(f[2]).value, f[3], f[4])
    ensures r.Err? ==> r.error.row == row
  {
    match Csv.Decode(line)
    case None => Err(LoadError(BadRecord, row))
    case Some(f) => RideOfFields(f, row)
  }

  // ----- the round trip -----

  lemma RideOfColumns(r: Ride, extra: seq<string>, row: nat)
    ensures RideOfFields(Columns(r.timestamp, r.distance, r.duration, r.comment, r.url) + extra, row)
         == Ok(r.(id := row))
  {
    var f := Columns(r.timestamp, r.distance, r.duration, r.comment, r.url) + extra;
    assert f[0] == Timestamps.Format(r.timestamp) && f[1] == Floats.Show(r.distance);
    assert f[2] == Floats.Show(r.duration) && f[3] == r.comment && f[4] == r.url;
    Timestamps.ParseFormat(r.timestamp);
    Floats.ParseShow(r.distance);
    Floats.ParseShow(r.duration);
  }

  /** Reading back the row `add_ride` wrote gives the same ride, whatever its
      comment and url contain, numbered by the row it is read from. */
  lemma DecodeEncodeRide(r: Ride, row: nat)
    ensures DecodeRide(EncodeRide(r), row) == Ok(r.(id := row))
  {
    var cols := Columns(r.timestamp, r.distance, r.duration, r.comment, r.url);
    Csv.DecodeEncode(cols);
    RideOfColumns(r, [], row);
    assert cols + [] == cols;
  }

  /** A row with columns beyond the fifth is read as if they were absent. */
  lemma ExtraColumnsIgnored(r: Ride, extra: seq<string>, row: nat)
    ensures DecodeRide(Csv.Encode(Columns(r.timestamp, r.distance, r.duration, r.comment, r.url) + extra), row)
         == Ok(r.(id := row))
  {
    Csv.DecodeEncode(Columns(r.timestamp, r.distance, r.duration, r.comment, r.url) + extra);
    RideOfColumns(r, extra, row);
  }

  /** A row with fewer than five fields is refused. */
  lemma ShortRowRefused(line: string, row: nat)
    requires Csv.Decode(line).Some? && |Csv.Decode(line).value| < 5
    ensures DecodeRide(line, row).Err?
  {
  }

  /** The ride's id plays no part in its row. */
  lemma EncodeIgnoresId(r: Ride, id: nat)
    ensures EncodeRide(r.(id := id)) == EncodeRide(r)
  {
  }
}
