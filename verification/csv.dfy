/**
 * One CSV record in the dialect the ride log uses: `,` as delimiter, `"` as
 * quote character, quotes inside a quoted field doubled, and minimal quoting
 * on output. This is the convention of section 2 of RFC 4180, read as
 * leniently as Python's `csv.reader` does (non-strict mode).
 *
 * A record here is the text of one row without its line terminator.
 */
module Csv {
  import opened Results

  const Delimiter: char := ','
  const Quote: char := '"'

  predicate IsLineBreak(c: char) {
    c == '\r' || c == '\n'
  }

  // ----- reading -----

  /** The states of Python's `csv.reader` while it reads one record. */
  datatype ScanState = StartRecord | StartField | InField | InQuotedField | QuoteInQuotedField

  /** The fields of the record when the text ends in state `st`. */
  function Finish(st: ScanState, field: string, done: seq<string>): seq<string> {
    if st == StartRecord then done else done + [field]
  }

  /** Reads `s` from state `st`, with `field` the text of the current field so far
      and `done` the fields already complete. A line break outside quotes, which
      would end the record early, is `None`. */
  function Scan(s: string, st: ScanState, field: string, done: seq<string>): Option<seq<string>>
    decreases |s|
  {
    if s == [] then Some(Finish(st, field, done))
    else
      var c, rest := s[0], s[1..];
      match st
      case StartRecord | StartField =>
        if IsLineBreak(c) then None
        else if c == Quote then Scan(rest, InQuotedField, "", done)
        else if c == Delimiter then Scan(rest, StartField, "", done + [""])
        else Scan(rest, InField, [c], done)
      case InField =>
        if IsLineBreak(c) then None
        else if c == Delimiter then Scan(rest, StartField, "", done + [field])
        else Scan(rest, InField, field + [c], done)
      case InQuotedField =>
        if c == Quote then Scan(rest, QuoteInQuotedField, field, done)
        else Scan(rest, InQuotedField, field + [c], done)
      case QuoteInQuotedField =>
        if c == Quote then Scan(rest, InQuotedField, field + [c], done)
        else if c == Delimiter then Scan(rest, StartField, "", done + [field])
        else if IsLineBreak(c) then None
        else Scan(rest, InField, field + [c], done)
  }

  /** The fields of one record, as `csv.reader(..., delimiter=',', quotechar='"')`
      yields them. A blank record has no field at all. */
  function Decode(line: string): Option<seq<string>> {
    Scan(line, StartRecord, "", [])
  }

  // ----- writing -----

  /** QUOTE_MINIMAL quotes exactly the fields holding the delimiter, the quote
      character or a character of the `\r\n` line terminator. */
  predicate NeedsQuotes(f: string) {
    exists i :: 0 <= i < |f| && (f[i] == Delimiter || f[i] == Quote || IsLineBreak(f[i]))
  }

  /** Every quote character doubled. */
  function Escape(f: string): (r: string)
    ensures |r| >= |f|
  {
    if f == [] then [] else (if f[0] == Quote then [Quote, Quote] else [f[0]]) + Escape(f[1..])
  }

  function EncodeField(f: string): string {
    if NeedsQuotes(f) then [Quote] + Escape(f) + [Quote] else f
  }

  function JoinFields(fields: seq<string>): string
    requires fields != []
  {
    if |fields| == 1 then EncodeField(fields[0])
    else EncodeField(fields[0]) + [Delimiter] + JoinFields(fields[1..])
  }

  /** `csv.writer(...).writerow(fields)` without the line terminator. A row made
      of one empty field is written `""` so that it is not a blank line. */
  function Encode(fields: seq<string>): string {
    if fields == [] then ""
    else if fields == [""] then [Quote, Quote]
    else JoinFields(fields)
  }

  // ----- the round trip -----

  /** The body of a quoted field: its escaped text and the closing quote. */
  lemma {:induction false} ScanQuoted(f: string, tail: string, field: string, done: seq<string>)
    ensures Scan(Escape(f) + [Quote] + tail, InQuotedField, field, done)
         == Scan(tail, QuoteInQuotedField, field + f, done)
  {
    var s := Escape(f) + [Quote] + tail;
    if f == [] {
      assert s == [Quote] + tail;
      assert s[1..] == tail;
      assert field + f == field;
    } else if f[0] == Quote {
      assert s == [Quote, Quote] + (Escape(f[1..]) + [Quote] + tail);
      assert s[1..][1..] == Escape(f[1..]) + [Quote] + tail;
      ScanQuoted(f[1..], tail, field + [Quote], done);
      assert field + [Quote] + f[1..] == field + f;
    } else {
      assert s == [f[0]] + (Escape(f[1..]) + [Quote] + tail);
      assert s[1..] == Escape(f[1..]) + [Quote] + tail;
      ScanQuoted(f[1..], tail, field + [f[0]], done);
      assert field + [f[0]] + f[1..] == field + f;
    }
  }

  /** The rest of an unquoted field. */
  lemma {:induction false} ScanUnquoted(f: string, tail: string, field: string, done: seq<string>)
    requires !NeedsQuotes(f)
    ensures Scan(f + tail, InField, field, done) == Scan(tail, InField, field + f, done)
  {
    if f == [] {
      assert f + tail == tail && field + f == field;
    } else {
      NoQuotesRest(f);
      assert (f + tail)[1..] == f[1..] + tail;
      ScanUnquoted(f[1..], tail, field + [f[0]], done);
      assert field + [f[0]] + f[1..] == field + f;
    }
  }

  lemma NoQuotesRest(f: string)
    requires f != [] && !NeedsQuotes(f)
    ensures !NeedsQuotes(f[1..])
    ensures f[0] != Quote && f[0] != Delimiter && !IsLineBreak(f[0])
  {
    forall i | 0 <= i < |f[1..]| ensures f[1..][i] == f[i + 1] { }
  }

  /** What follows a field: the end of the record, or a delimiter. */
  predicate FieldEnd(tail: string) {
    tail == [] || tail[0] == Delimiter
  }

  function AfterField(tail: string, f: string, done: seq<string>): Option<seq<string>>
    requires FieldEnd(tail)
  {
    if tail == [] then Some(done + [f]) else Scan(tail[1..], StartField, "", done + [f])
  }

  lemma ScanQuotedField(f: string, tail: string, st: ScanState, done: seq<string>)
    requires st == StartField || st == StartRecord
    requires NeedsQuotes(f)
    ensures Scan([Quote] + Escape(f) + [Quote] + tail, st, "", done)
         == Scan(tail, QuoteInQuotedField, f, done)
  {
    var s := [Quote] + Escape(f) + [Quote] + tail;
    assert s[1..] == Escape(f) + [Quote] + tail;
    ScanQuoted(f, tail, "", done);
    assert "" + f == f;
  }

  lemma ScanPlainField(f: string, tail: string, st: ScanState, done: seq<string>)
    requires st == StartField || st == StartRecord
    requires f != [] && !NeedsQuotes(f)
    ensures Scan(f + tail, st, "", done) == Scan(tail, InField, f, done)
  {
    NoQuotesRest(f);
    assert (f + tail)[1..] == f[1..] + tail;
    ScanUnquoted(f[1..], tail, [f[0]], done);
    assert [f[0]] + f[1..] == f;
  }

  lemma ScanFieldEnd(tail: string, st: ScanState, f: string, done: seq<string>)
    requires st == InField || st == QuoteInQuotedField
    requires FieldEnd(tail)
    ensures Scan(tail, st, f, done) == AfterField(tail, f, done)
  {
  }

  /** One encoded field followed by the end of the record or a delimiter.
      From `StartRecord` the record must not be empty: an empty record has no field. */
  lemma ScanField(f: string, tail: string, st: ScanState, done: seq<string>)
    requires st == StartField || st == StartRecord
    requires FieldEnd(tail)
    requires st == StartRecord ==> EncodeField(f) + tail != []
    ensures Scan(EncodeField(f) + tail, st, "", done) == AfterField(tail, f, done)
  {
    if NeedsQuotes(f) {
      ScanQuotedField(f, tail, st, done);
      ScanFieldEnd(tail, QuoteInQuotedField, f, done);
    } else if f == [] {
      assert EncodeField(f) + tail == tail;
    } else {
      ScanPlainField(f, tail, st, done);
      ScanFieldEnd(tail, InField, f, done);
    }
  }

  lemma {:induction false} ScanJoined(fields: seq<string>, st: ScanState, done: seq<string>)
    requires fields != []
    requires st == StartField || st == StartRecord
    requires st == StartRecord ==> JoinFields(fields) != []
    ensures Scan(JoinFields(fields), st, "", done) == Some(done + fields)
  {
    if |fields| == 1 {
      assert JoinFields(fields) == EncodeField(fields[0]) + [];
      ScanField(fields[0], [], st, done);
      assert done + [fields[0]] == done + fields;
    } else {
      var rest := JoinFields(fields[1..]);
      var tail := [Delimiter] + rest;
      assert JoinFields(fields) == EncodeField(fields[0]) + tail;
      assert FieldEnd(tail) && tail[1..] == rest;
      ScanField(fields[0], tail, st, done);
      ScanJoined(fields[1..], StartField, done + [fields[0]]);
      assert done + [fields[0]] + fields[1..] == done + fields;
    }
  }

  /** Decoding a written row gives back its fields, whatever they contain:
      delimiters, quote characters and line breaks included. */
  lemma DecodeEncode(fields: seq<string>)
    ensures Decode(Encode(fields)) == Some(fields)
  {
    if fields == [] {
    } else if fields == [""] {
      var s := [Quote, Quote];
      assert s[1..] == [Quote] && s[1..][1..] == [];
      assert [] + [""] == [""];
      assert Scan([], QuoteInQuotedField, "", []) == Some([""]);
      assert Scan([Quote], InQuotedField, "", []) == Some([""]);
    } else {
      assert JoinFields(fields) != [] by {
        if EncodeField(fields[0]) == [] {
          assert |fields| > 1;
        }
      }
      ScanJoined(fields, StartRecord, []);
      assert [] + fields == fields;
    }
  }

  /** A blank record has no field. */
  lemma DecodeBlank()
    ensures Decode("") == Some([])
  {
  }
}
