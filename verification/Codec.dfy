/** Command tags and CSV results: printed by the SQL runner (app/src/database/migrate.go),
    parsed by the repository (app/src/database/postgres.go). */
module Codec {
  import opened Domain
  import opened Text

  // ---------------------------------------------------------------- command tags

  /** The verb a statement starts with, in upper case. */
  function Verb(statement: string): (v: string)
    requires TrimSpace(statement) != ""
  {
    BlankHasNoFields(statement);
    ToUpper(Fields(statement)[0])
  }

  /** commandTag; the caller has rejected blank statements. */
  function CommandTag(statement: string, affected: int): string
    requires TrimSpace(statement) != ""
  {
    if Verb(statement) == "INSERT" then "INSERT 0 " + FormatInt(affected)
    else Verb(statement) + " " + FormatInt(affected)
  }

  function ParseRowsAffected(tag: string): Result<int, string> {
    var fields := Fields(TrimSpace(tag));
    if fields == [] then Ok(0)
    else
      var verb := ToUpper(fields[0]);
      if verb == "UPDATE" || verb == "DELETE" then
        if |fields| < 2 then Err("unexpected command tag") else ParseInt64(fields[1])
      else if verb == "INSERT" then
        if |fields| < 3 then Err("unexpected command tag") else ParseInt64(fields[|fields| - 1])
      else Err("unsupported command tag")
  }

  lemma VerbIsWord(statement: string)
    requires TrimSpace(statement) != ""
    ensures Verb(statement) != "" && NoSpace(Verb(statement)) && ToUpper(Verb(statement)) == Verb(statement)
  {
    BlankHasNoFields(statement);
    FieldsAreWords(statement);
    var w := Fields(statement)[0];
    forall i | 0 <= i < |w| ensures !IsSpace(ToUpper(w)[i]) {
      assert !IsSpace(w[i]);
    }
    assert ToUpper(ToUpper(w)) == ToUpper(w);
  }

  lemma TagFields(statement: string, n: int)
    requires TrimSpace(statement) != ""
    ensures Fields(TrimSpace(CommandTag(statement, n)))
         == if Verb(statement) == "INSERT" then ["INSERT", "0", FormatInt(n)] else [Verb(statement), FormatInt(n)]
  {
    VerbIsWord(statement);
    FormatIntRoundTrip(n);
    var number := FormatInt(n);
    if Verb(statement) == "INSERT" {
      FieldsOfThree("INSERT", "0", number);
      assert "INSERT" + " " + "0" + " " + number == "INSERT 0 " + number;
    } else {
      FieldsOfTwo(Verb(statement), number);
    }
  }

  lemma TagOfVerb(verb: string, tag: string, number: string)
    requires ToUpper(verb) == verb
    requires Fields(TrimSpace(tag)) == if verb == "INSERT" then ["INSERT", "0", number] else [verb, number]
    ensures ParseRowsAffected(tag)
         == if verb in {"INSERT", "UPDATE", "DELETE"} then ParseInt64(number) else Err("unsupported command tag")
  { }

  /** A command tag yields its row count exactly for INSERT, UPDATE and DELETE statements (in
      any letter case) whose count fits in 64 bits; every other tag is an error. */
  lemma TagRoundTrip(statement: string, n: int)
    requires TrimSpace(statement) != ""
    ensures ParseRowsAffected(CommandTag(statement, n)) == Ok(n)
       <==> Verb(statement) in {"INSERT", "UPDATE", "DELETE"} && -INT64_LIMIT <= n < INT64_LIMIT
    ensures ParseRowsAffected(CommandTag(statement, n)) == Ok(n) || ParseRowsAffected(CommandTag(statement, n)).Err?
  {
    VerbIsWord(statement);
    TagFields(statement, n);
    FormatIntRoundTrip(n);
    TagOfVerb(Verb(statement), CommandTag(statement, n), FormatInt(n));
  }

  /** A tag of words separated by blanks yields, by its first word in any letter case, its second word as
      a number for UPDATE and DELETE, its last for INSERT, which needs three words; a blank tag none. */
  lemma RowsAffectedOfWords(words: seq<string>)
    requires forall i :: 0 <= i < |words| ==> words[i] != "" && NoSpace(words[i])
    ensures ParseRowsAffected("") == Ok(0)
    ensures words != [] ==> var r := ParseRowsAffected(Join(words, ' ')); var verb := ToUpper(words[0]);
      if verb == "INSERT" then (if |words| < 3 then r.Err? else r == ParseInt64(words[|words| - 1]))
      else if verb == "UPDATE" || verb == "DELETE" then (if |words| < 2 then r.Err? else r == ParseInt64(words[1]))
      else r.Err?
  {
    assert Fields("") == [] && TrimSpace("") == "";
    if words != [] {
      FieldsOfWords(words);
      TrimSpaceOfTight(Join(words, ' '));
      hide Fields, TrimSpace, ToUpper, ParseInt64, Join;
    }
  }

  /** A statement that starts, after blanks, with a given word has that verb. */
  lemma VerbOfStatement(word: string, rest: string)
    requires word != "" && NoSpace(word)
    requires rest != "" && IsSpace(rest[0])
    ensures TrimSpace(word + rest) != "" && Verb(word + rest) == ToUpper(word)
  {
    FieldsOfWord(word, rest);
    BlankHasNoFields(word + rest);
  }

  // ---------------------------------------------------------------- CSV results

  /** A field the CSV writer leaves unquoted and the reader takes as it stands. */
  predicate Plain(f: string) {
    && f != "" && f != "\\."
    && !IsSpace(f[0]) && !IsSpace(f[|f| - 1])
    && ',' !in f && '"' !in f && '\n' !in f && '\r' !in f
  }

  /** Printer and parser of a column type. */
  datatype TextCodec<!T> = TextCodec(print_: T -> string, parse: string -> Option<T>)

  /** The printed form of v goes unquoted through CSV and parses back to v. */
  predicate ReadsBack<T(==)>(c: TextCodec<T>, v: T) {
    Plain(c.print_(v)) && c.parse(c.print_(v)) == Some(v)
  }

  datatype Columns = Columns(value: TextCodec<real>, ts: TextCodec<int>)

  /** scanRow: the four selected columns as text. */
  function RecordOf(c: Columns, p: PacketMax): (r: seq<string>)
    ensures r != []
  {
    [p.packetId, p.sourceId, c.value.print_(p.value), c.ts.print_(p.ts)]
  }

  function Line(c: Columns, p: PacketMax): string { Join(RecordOf(c, p), ',') }

  function Lines(c: Columns, rows: seq<PacketMax>): (ls: seq<string>)
    ensures |ls| == |rows|
  {
    seq(|rows|, i requires 0 <= i < |rows| => Line(c, rows[i]))
  }

  /** Every record line, each ended by a newline. */
  function Terminated(ls: seq<string>): string {
    if ls == [] then "" else Terminated(ls[..|ls| - 1]) + ls[|ls| - 1] + "\n"
  }

  /** writeCSV over plain fields: one line per row, in the order of the rows. */
  method WriteCsv(c: Columns, rows: seq<PacketMax>) returns (out: string)
    ensures out == Terminated(Lines(c, rows))
    ensures rows == [] <==> out == ""
  {
    out := "";
    for i := 0 to |rows|
      invariant out == Terminated(Lines(c, rows)[..i])
      invariant i == 0 <==> out == ""
    {
      ghost var ls := Lines(c, rows);
      assert ls[..i + 1][..i] == ls[..i];
      out := out + Line(c, rows[i]) + "\n";
    }
    assert Lines(c, rows)[..|rows|] == Lines(c, rows);
  }

  /** One line as the reader splits it: leading blanks of a field are dropped. */
  function SplitLine(line: string): seq<string> {
    var fs := Split(line, ',');
    seq(|fs|, i requires 0 <= i < |fs| => TrimLeft(fs[i]))
  }

  /** One CSV record turned into a row; `width` is the column count of the first record. */
  function ParseLine(c: Columns, line: string, width: nat): Result<PacketMax, string> {
    var fs := SplitLine(line);
    if '"' in line then Err("parse csv")
    else if |fs| != width then Err("parse csv: wrong number of fields")
    else if |fs| < 4 then Err("unexpected column count")
    else
      match c.value.parse(TrimSpace(fs[2]))
      case None => Err("parse float")
      case Some(value) =>
        match c.ts.parse(fs[3])
        case None => Err("parse timestamp")
        case Some(ts) => Ok(PacketMax(fs[0], fs[1], value, ts))
  }

  function StripCarriageReturn(line: string): string {
    if line != "" && line[|line| - 1] == '\r' then line[..|line| - 1] else line
  }

  /** The rows of the non-empty lines, or the first error. */
  function ParseLines(c: Columns, lines: seq<string>, width: Option<nat>): Result<seq<PacketMax>, string> {
    if lines == [] then Ok([])
    else
      var line := StripCarriageReturn(lines[0]);
      if line == "" then ParseLines(c, lines[1..], width)
      else
        var w := if width.Some? then width.value else |SplitLine(line)|;
        match ParseLine(c, line, w)
        case Err(e) => Err(e)
        case Ok(p) =>
          match ParseLines(c, lines[1..], Some(w))
          case Err(e) => Err(e)
          case Ok(ps) => Ok([p] + ps)
  }

  function PacketMaxListOf(c: Columns, output: string): Result<seq<PacketMax>, string> {
    var trimmed := TrimSpace(output);
    if trimmed == "" then Ok([]) else ParseLines(c, Split(trimmed, '\n'), None)
  }

  /** parsePacketMaxList: the reader loop that appends one row per record. */
  method ParsePacketMaxList(c: Columns, output: string) returns (r: Result<seq<PacketMax>, string>)
    ensures r == PacketMaxListOf(c, output)
  {
    hide ParseLine, SplitLine, TrimSpace;
    var trimmed := TrimSpace(output);
    if trimmed == "" {
      return Ok([]);
    }
    var lines := Split(trimmed, '\n');
    var results: seq<PacketMax> := [];
    var width: Option<nat> := None;
    assert lines[0..] == lines;
    PrefixedNothing(ParseLines(c, lines, None));
    for i := 0 to |lines|
      invariant ParseLines(c, lines, None) == Prefixed(results, ParseLines(c, lines[i..], width))
    {
      var line := StripCarriageReturn(lines[i]);
      assert lines[i..][0] == lines[i] && lines[i..][1..] == lines[i + 1..];
      if line != "" {
        var w := if width.Some? then width.value else |SplitLine(line)|;
        var p := ParseLine(c, line, w);
        if p.Err? {
          return Err(p.error);
        }
        PrefixedTwice(results, [p.value], ParseLines(c, lines[i + 1..], Some(w)));
        results, width := results + [p.value], Some(w);
      }
    }
    assert lines[|lines|..] == [];
    assert results + [] == results;
    return Ok(results);
  }

  /** The records of the text: its lines without carriage returns, blank ones left out. */
  function Records(lines: seq<string>): seq<string> {
    if lines == [] then []
    else (if StripCarriageReturn(lines[0]) == "" then [] else [StripCarriageReturn(lines[0])]) + Records(lines[1..])
  }

  /** A record of the given number of columns whose value and timestamp parse. */
  predicate GoodRecord(c: Columns, record: string, width: nat) {
    && '"' !in record && |Split(record, ',')| == width && width >= 4
    && c.value.parse(TrimSpace(TrimLeft(Split(record, ',')[2]))).Some?
    && c.ts.parse(TrimLeft(Split(record, ',')[3])).Some?
  }

  /** The row of a record: its first four columns, blanks before a column left out. */
  predicate IsRowOfRecord(c: Columns, record: string, p: PacketMax) {
    && |Split(record, ',')| >= 4
    && p.packetId == TrimLeft(Split(record, ',')[0]) && p.sourceId == TrimLeft(Split(record, ',')[1])
    && c.value.parse(TrimSpace(TrimLeft(Split(record, ',')[2]))) == Some(p.value)
    && c.ts.parse(TrimLeft(Split(record, ',')[3])) == Some(p.ts)
  }

  lemma ParseLineIff(c: Columns, line: string, width: nat)
    ensures ParseLine(c, line, width).Ok? <==> GoodRecord(c, line, width)
    ensures ParseLine(c, line, width).Ok? ==> IsRowOfRecord(c, line, ParseLine(c, line, width).value)
  {
    hide Split, TrimSpace, TrimLeft;
  }

  function WithCarriageReturns(lines: seq<string>): (r: seq<string>)
    ensures |r| == |lines|
  {
    seq(|lines|, i requires 0 <= i < |lines| => lines[i] + "\r")
  }

  /** Lines that end in a carriage return have the records of those that do not. */
  lemma {:induction false} CarriageReturnsAreDropped(lines: seq<string>)
    requires forall i :: 0 <= i < |lines| ==> '\r' !in lines[i]
    ensures Records(WithCarriageReturns(lines)) == Records(lines)
  {
    if lines != [] {
      CarriageReturnsAreDropped(lines[1..]);
      assert WithCarriageReturns(lines)[1..] == WithCarriageReturns(lines[1..]);
      assert StripCarriageReturn(lines[0] + "\r") == lines[0] == StripCarriageReturn(lines[0]);
    }
  }

  predicate AllGood(c: Columns, records: seq<string>, width: nat) {
    forall i :: 0 <= i < |records| ==> GoodRecord(c, records[i], width)
  }

  predicate RowsOfRecords(c: Columns, records: seq<string>, rows: seq<PacketMax>) {
    |rows| == |records| && forall i :: 0 <= i < |rows| ==> IsRowOfRecord(c, records[i], rows[i])
  }

  lemma AllGoodCons(c: Columns, record: string, rest: seq<string>, width: nat)
    ensures AllGood(c, [record] + rest, width) <==> GoodRecord(c, record, width) && AllGood(c, rest, width)
  {
    hide GoodRecord;
    var records := [record] + rest;
    assert records[0] == record;
    assert forall i :: 0 <= i < |rest| ==> records[i + 1] == rest[i];
    assert forall i :: 1 <= i < |records| ==> records[i] == rest[i - 1];
  }

  lemma RowsCons(c: Columns, record: string, rest: seq<string>, row: PacketMax, rows: seq<PacketMax>)
    requires IsRowOfRecord(c, record, row) && RowsOfRecords(c, rest, rows)
    ensures RowsOfRecords(c, [record] + rest, [row] + rows)
  {
    hide IsRowOfRecord;
  }

  /** The list parses exactly when every record is good, with the column count of the first; then there is
      one row for each record, in order. */
  lemma {:induction false} ListParsesIff(c: Columns, lines: seq<string>, width: Option<nat>)
    ensures var records := Records(lines);
      ParseLines(c, lines, width).Ok?
      <==> (records == [] || AllGood(c, records, if width.Some? then width.value else |Split(records[0], ',')|))
    ensures ParseLines(c, lines, width).Ok? ==> RowsOfRecords(c, Records(lines), ParseLines(c, lines, width).value)
  {
    hide GoodRecord, IsRowOfRecord, AllGood, ParseLine, Split, RowsOfRecords;
    if lines == [] {
      assert RowsOfRecords(c, [], []) by {
        NoRows(c);
      }
    } else {
      var record, rest := StripCarriageReturn(lines[0]), Records(lines[1..]);
      if record == "" {
        ListParsesIff(c, lines[1..], width);
        assert Records(lines) == rest;
      } else {
        var w := if width.Some? then width.value else |Split(record, ',')|;
        assert |SplitLine(record)| == |Split(record, ',')|;
        ParseLineIff(c, record, w);
        ListParsesIff(c, lines[1..], Some(w));
        AllGoodCons(c, record, rest, w);
        NoRows(c);
        var p := ParseLine(c, record, w);
        if p.Ok? && ParseLines(c, lines[1..], Some(w)).Ok? {
          RowsCons(c, record, rest, p.value, ParseLines(c, lines[1..], Some(w)).value);
        }
      }
    }
  }

  lemma NoRows(c: Columns)
    ensures RowsOfRecords(c, [], []) && forall w :: AllGood(c, [], w)
  { }

  ghost function Prefixed(done: seq<PacketMax>, r: Result<seq<PacketMax>, string>): Result<seq<PacketMax>, string> {
    match r
    case Err(e) => Err(e)
    case Ok(ps) => Ok(done + ps)
  }

  lemma PrefixedNothing(r: Result<seq<PacketMax>, string>)
    ensures Prefixed([], r) == r
  {
    if r.Ok? {
      assert [] + r.value == r.value;
    }
  }

  lemma PrefixedTwice(a: seq<PacketMax>, b: seq<PacketMax>, r: Result<seq<PacketMax>, string>)
    ensures Prefixed(a, Prefixed(b, r)) == Prefixed(a + b, r)
  {
    if r.Ok? {
      assert a + (b + r.value) == a + b + r.value;
    }
  }

  // ---------------------------------------------------------------- the round trip

  predicate PlainIds(p: PacketMax) { Plain(p.packetId) && Plain(p.sourceId) }

  /** Every column of the row goes through CSV. */
  predicate PlainRow(c: Columns, p: PacketMax) {
    PlainIds(p) && ReadsBack(c.value, p.value) && ReadsBack(c.ts, p.ts)
  }

  lemma JoinedRecord(c: Columns, p: PacketMax)
    ensures Line(c, p)
         == p.packetId + [','] + (p.sourceId + [','] + (c.value.print_(p.value) + [','] + c.ts.print_(p.ts)))
  {
    var r := RecordOf(c, p);
    var v, t := c.value.print_(p.value), c.ts.print_(p.ts);
    assert Join([t], ',') == t;
    assert Join([v, t], ',') == v + [','] + t by { assert [v, t][1..] == [t]; }
    assert Join([p.sourceId, v, t], ',') == p.sourceId + [','] + Join([v, t], ',') by {
      assert [p.sourceId, v, t][1..] == [v, t];
    }
    assert r[1..] == [p.sourceId, v, t];
  }

  lemma LineShape(c: Columns, p: PacketMax)
    requires PlainRow(c, p)
    ensures Line(c, p) != "" && !IsSpace(Line(c, p)[0]) && !IsSpace(Line(c, p)[|Line(c, p)| - 1])
    ensures '\n' !in Line(c, p) && '\r' !in Line(c, p) && '"' !in Line(c, p)
    ensures StripCarriageReturn(Line(c, p)) == Line(c, p)
  {
    JoinedRecord(c, p);
    var v, t := c.value.print_(p.value), c.ts.print_(p.ts);
    assert Plain(v) && Plain(t);
    assert Line(c, p)[0] == p.packetId[0];
    assert Line(c, p)[|Line(c, p)| - 1] == t[|t| - 1];
  }

  lemma LineRoundTrip(c: Columns, p: PacketMax)
    requires PlainRow(c, p)
    ensures |SplitLine(Line(c, p))| == 4
    ensures ParseLine(c, Line(c, p), 4) == Ok(p)
  {
    LineShape(c, p);
    var r := RecordOf(c, p);
    assert Plain(c.value.print_(p.value)) && Plain(c.ts.print_(p.ts));
    SplitInvertsJoin(r, ',');
    assert SplitLine(Line(c, p)) == r;
    TrimSpaceOfTight(r[2]);
  }

  lemma {:induction false} TerminatedIsJoined(ls: seq<string>)
    requires ls != []
    ensures Terminated(ls) == Join(ls, '\n') + "\n"
  {
    var front := ls[..|ls| - 1];
    if front != [] {
      TerminatedIsJoined(front);
      JoinSnoc(front, ls[|ls| - 1]);
      assert front + [ls[|ls| - 1]] == ls;
    } else {
      assert Terminated(front) == "";
    }
  }

  lemma {:induction false} JoinSnoc(ls: seq<string>, l: string)
    requires ls != []
    ensures Join(ls + [l], '\n') == Join(ls, '\n') + ['\n'] + l
  {
    if |ls| > 1 {
      JoinSnoc(ls[1..], l);
      assert (ls + [l])[1..] == ls[1..] + [l];
    } else {
      assert (ls + [l])[1..] == [l];
    }
  }

  lemma {:induction false} JoinEnds(ls: seq<string>)
    requires ls != []
    requires forall i :: 0 <= i < |ls| ==> ls[i] != "" && !IsSpace(ls[i][0]) && !IsSpace(ls[i][|ls[i]| - 1])
    ensures Join(ls, '\n') != ""
    ensures !IsSpace(Join(ls, '\n')[0]) && !IsSpace(Join(ls, '\n')[|Join(ls, '\n')| - 1])
  {
    if |ls| > 1 {
      JoinEnds(ls[1..]);
    }
  }

  lemma {:induction false} ParseLinesRoundTrip(c: Columns, rows: seq<PacketMax>, width: Option<nat>)
    requires forall i :: 0 <= i < |rows| ==> PlainRow(c, rows[i])
    requires width in {None, Some(4)}
    ensures ParseLines(c, Lines(c, rows), width) == Ok(rows)
  {
    if rows != [] {
      LineShape(c, rows[0]);
      LineRoundTrip(c, rows[0]);
      hide ParseLine, SplitLine, StripCarriageReturn, Line, PlainRow;
      assert Lines(c, rows)[1..] == Lines(c, rows[1..]);
      ParseLinesRoundTrip(c, rows[1..], Some(4));
      assert [rows[0]] + rows[1..] == rows;
    } else {
      assert Lines(c, rows) == [];
    }
  }

  /** Reading back the CSV text of any list of rows gives the list, in its order; the text of
      no rows reads back as no rows. */
  lemma CsvRoundTrip(c: Columns, rows: seq<PacketMax>)
    requires forall i :: 0 <= i < |rows| ==> PlainRow(c, rows[i])
    ensures PacketMaxListOf(c, Terminated(Lines(c, rows))) == Ok(rows)
  {
    var ls := Lines(c, rows);
    if rows != [] {
      forall i | 0 <= i < |ls|
        ensures ls[i] != "" && !IsSpace(ls[i][0]) && !IsSpace(ls[i][|ls[i]| - 1]) && '\n' !in ls[i]
      {
        LineShape(c, rows[i]);
      }
      TerminatedIsJoined(ls);
      JoinEnds(ls);
      var text := Join(ls, '\n');
      assert (text + "\n")[..|text|] == text;
      assert TrimLeft(text + "\n") == text + "\n";
      assert TrimRight(text + "\n") == TrimRight(text) == text;
      SplitInvertsJoin(ls, '\n');
      ParseLinesRoundTrip(c, rows, None);
    }
  }

  lemma DecimalIsPlain(n: int)
    requires -INT64_LIMIT <= n < INT64_LIMIT
    ensures Plain(FormatInt(n)) && ParseInt64(FormatInt(n)) == Ok(n)
  {
    FormatIntRoundTrip(n);
    ItoaRoundTrip(if n < 0 then -n else n);
    var s := FormatInt(n);
    assert forall i :: 0 <= i < |s| ==> IsDigit(s[i]) || s[i] == '-';
  }

  function ParseDecimal(s: string): Option<int> {
    match ParseInt64(s)
    case Ok(n) => Some(n)
    case Err(_) => None
  }

  /** Columns that print integral values and nanosecond timestamps in decimal. */
  const DECIMAL := Columns(
    TextCodec((v: real) => FormatInt(v.Floor),
              s => match ParseDecimal(s) case Some(n) => Some(n as real) case None => None),
    TextCodec(n => FormatInt(n), s => ParseDecimal(s)))

  /** They read back every integral value and every timestamp of 64 bits. */
  lemma DecimalReadsBack(n: int)
    requires -INT64_LIMIT <= n < INT64_LIMIT
    ensures ReadsBack(DECIMAL.value, n as real) && ReadsBack(DECIMAL.ts, n)
  {
    DecimalIsPlain(n);
    assert (n as real).Floor == n;
  }
}
