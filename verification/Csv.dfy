/** The CSV printer of the table formatter (pkg/formatter/table.go) against a reader
    for the format of section 2 of RFC 4180, with LF as the record separator. */
module Csv {
  import opened Strings
  import opened Seqs

  // ----------------------------------------------------------------- printer

  predicate NeedsQuotes(value: string) {
    ',' in value || '"' in value || '\n' in value
  }

  /** Every quote doubled. */
  function Doubled(value: string): string {
    if value == "" then ""
    else (if value[0] == '"' then "\"\"" else [value[0]]) + Doubled(value[1..])
  }

  function EscapeCSV(value: string): string {
    if NeedsQuotes(value) then "\"" + Doubled(value) + "\"" else value
  }

  lemma {:induction false} DoubledIsNotShorter(value: string)
    ensures |Doubled(value)| >= |value|
  {
    if value != "" { DoubledIsNotShorter(value[1..]); }
  }

  /** A cell is written as it is exactly when it has no comma, no quote and no line feed. */
  lemma PlainExactlyWhen(value: string)
    ensures EscapeCSV(value) == value <==> ',' !in value && '"' !in value && '\n' !in value
  {
    DoubledIsNotShorter(value);
  }

  function Escaped(cells: seq<string>): seq<string> {
    seq(|cells|, i requires 0 <= i < |cells| => EscapeCSV(cells[i]))
  }

  function Line(cells: seq<string>): string {
    Join(Escaped(cells), ',')
  }

  function Lines(records: seq<seq<string>>): seq<string> {
    seq(|records|, i requires 0 <= i < |records| => Line(records[i]))
  }

  /** What the printer is handed: anything but a slice is an error, and so is a
      slice whose elements are not structs. */
  datatype Data<R> = NotASlice | Slice(elems: seq<R>, ofStructs: bool)

  datatype Field = Field(name: string, displayName: string)

  datatype Output = Text(csv: string) | Failed(message: string)

  function Headers(fields: seq<Field>): seq<string> {
    seq(|fields|, i requires 0 <= i < |fields| => fields[i].displayName)
  }

  function Cells<R>(elem: R, fields: seq<Field>, format: (R, Field) -> string): seq<string> {
    seq(|fields|, i requires 0 <= i < |fields| => format(elem, fields[i]))
  }

  /** The header and one record for each element. */
  function Table<R>(elems: seq<R>, fields: seq<Field>, format: (R, Field) -> string): seq<seq<string>> {
    [Headers(fields)] + seq(|elems|, i requires 0 <= i < |elems| => Cells(elems[i], fields, format))
  }

  /** Go's ToCSV; `format` stands for looking a field up and formatting its value. */
  method ToCSV<R>(data: Data<R>, fields: seq<Field>, format: (R, Field) -> string) returns (out: Output)
    ensures out.Failed? <==> data.NotASlice? || (data.elems != [] && !data.ofStructs)
    ensures out.Text? && (data.elems == [] || fields == []) ==> out.csv == ""
    ensures out.Text? && data.elems != [] && fields != [] ==>
              out.csv == Join(Lines(Table(data.elems, fields, format)), '\n')
              && Read(false, out.csv) == Some(Table(data.elems, fields, format))
              && var read := Read(false, out.csv).value;
                 && |read| == |data.elems| + 1 && |read[0]| == |fields|
                 && (forall i :: 0 <= i < |fields| ==> read[0][i] == fields[i].displayName)
                 && forall k :: 0 <= k < |data.elems| ==>
                      |read[k + 1]| == |fields|
                      && forall i :: 0 <= i < |fields| ==> read[k + 1][i] == format(data.elems[k], fields[i])
  {
    if data.NotASlice? {
      return Failed("data must be a slice");
    }
    if data.elems == [] {
      return Text("");
    }
    if !data.ofStructs {
      return Failed("slice elements must be structs");
    }
    if fields == [] {
      return Text("");
    }
    ghost var table := Table(data.elems, fields, format);
    var header := CsvRow(Headers(fields));
    var csvRows := [header];
    for i := 0 to |data.elems|
      invariant |csvRows| == i + 1
      invariant forall k :: 0 <= k <= i ==> csvRows[k] == Line(table[k])
    {
      var row := CsvRow(Cells(data.elems[i], fields, format));
      csvRows := csvRows + [row];
    }
    assert csvRows == Lines(table);
    ReadBack(table);
    out := Text(Join(csvRows, '\n'));
  }

  /** One record: the cells escaped one by one, then joined. */
  method CsvRow(values: seq<string>) returns (row: string)
    ensures row == Line(values)
  {
    var cells: seq<string> := [];
    for j := 0 to |values|
      invariant cells == Escaped(values)[..j]
    {
      cells := cells + [EscapeCSV(values[j])];
    }
    assert cells == Escaped(values);
    row := Join(cells, ',');
  }

  // ------------------------------------------------------------------ reader

  /** Where in a field the reader stands. */
  datatype Mode = AtStart | Plain | Quoted | QuoteSeen

  /** Reads the rest of a file: `field` is the field begun, `record` the fields
      before it in its record, `records` the records before that. With `crlf` set,
      CR LF outside quotes ends a record too. */
  function Scan(crlf: bool, s: string, mode: Mode, field: string, record: seq<string>, records: seq<seq<string>>)
    : Option<seq<seq<string>>>
    decreases |s|
  {
    if s == "" then
      if mode == Quoted then None else Some(records + [record + [field]])
    else if mode == Quoted then
      if s[0] == '"' then Scan(crlf, s[1..], QuoteSeen, field, record, records)
      else Scan(crlf, s[1..], Quoted, field + [s[0]], record, records)
    else if mode == QuoteSeen && s[0] == '"' then
      Scan(crlf, s[1..], Quoted, field + ['"'], record, records)
    else if mode == AtStart && s[0] == '"' then
      Scan(crlf, s[1..], Quoted, "", record, records)
    else if s[0] == ',' then
      Scan(crlf, s[1..], AtStart, "", record + [field], records)
    else if s[0] == '\n' then
      Scan(crlf, s[1..], AtStart, "", [], records + [record + [field]])
    else if crlf && HasPrefix(s, "\r\n") then
      Scan(crlf, s[2..], AtStart, "", [], records + [record + [field]])
    else if mode == QuoteSeen || s[0] == '"' then
      None
    else
      Scan(crlf, s[1..], Plain, field + [s[0]], record, records)
  }

  function Read(crlf: bool, s: string): Option<seq<seq<string>>> {
    Scan(crlf, s, AtStart, "", [], [])
  }

  /** Nothing, or a separator, follows a field the printer wrote. */
  predicate FieldEnds(rest: string) {
    rest == "" || rest[0] == ',' || rest[0] == '\n'
  }

  /** The scan goes on after a whole field. */
  function After(crlf: bool, rest: string, field: string, record: seq<string>, records: seq<seq<string>>)
    : Option<seq<seq<string>>>
    requires FieldEnds(rest)
  {
    if rest == "" then Some(records + [record + [field]])
    else if rest[0] == ',' then Scan(crlf, rest[1..], AtStart, "", record + [field], records)
    else Scan(crlf, rest[1..], AtStart, "", [], records + [record + [field]])
  }

  /** What a reader makes of a field: one that takes CR LF for a line break loses
      a bare CR that the printer left just before a line break. */
  function Received(crlf: bool, value: string, rest: string): string {
    if crlf && HasPrefix(rest, "\n") && !NeedsQuotes(value) && HasSuffix(value, "\r")
    then value[..|value| - 1] else value
  }

  lemma {:induction false} ScanQuoted(crlf: bool, value: string, rest: string, field: string,
                                      record: seq<string>, records: seq<seq<string>>)
    requires FieldEnds(rest)
    ensures Scan(crlf, Doubled(value) + "\"" + rest, Quoted, field, record, records)
         == After(crlf, rest, field + value, record, records)
    decreases |value|
  {
    var s := Doubled(value) + "\"" + rest;
    if value == "" {
      assert s[1..] == rest;
      assert field + value == field;
    } else {
      var tail := Doubled(value[1..]) + "\"" + rest;
      ScanQuoted(crlf, value[1..], rest, field + [value[0]], record, records);
      assert field + [value[0]] + value[1..] == field + value;
      if value[0] == '"' {
        assert s[1..][1..] == tail;
      } else {
        assert s[1..] == tail;
      }
    }
  }

  lemma ScanOnePlain(crlf: bool, s: string, mode: Mode, field: string, record: seq<string>, records: seq<seq<string>>)
    requires s != "" && !NeedsQuotes(s[..1]) && !(crlf && HasPrefix(s, "\r\n")) && (mode == AtStart || mode == Plain)
    ensures Scan(crlf, s, mode, field, record, records) == Scan(crlf, s[1..], Plain, field + [s[0]], record, records)
  {
    assert s[0] in s[..1];
  }

  lemma {:induction false} ScanPlain(crlf: bool, value: string, rest: string, mode: Mode, field: string,
                                     record: seq<string>, records: seq<seq<string>>)
    requires FieldEnds(rest) && !NeedsQuotes(value) && (mode == AtStart || mode == Plain)
    ensures Scan(crlf, value + rest, mode, field, record, records)
         == After(crlf, rest, field + Received(crlf, value, rest), record, records)
    decreases |value|
  {
    var s := value + rest;
    if value == "" {
      assert s == rest;
      assert field + value == field;
    } else if crlf && HasPrefix(s, "\r\n") {
      BareCrEnds(value, rest);
      assert s[2..] == rest[1..];
      assert field + value[..0] == field;
    } else {
      ConcatTail(value, rest);
      ScanOnePlain(crlf, s, mode, field, record, records);
      ScanPlain(crlf, value[1..], rest, Plain, field + [value[0]], record, records);
      ReceivedTail(crlf, value, rest);
      ConcatThree(field, [value[0]], Received(crlf, value[1..], rest));
    }
  }

  lemma BareCrEnds(value: string, rest: string)
    requires value != "" && !NeedsQuotes(value) && HasPrefix(value + rest, "\r\n")
    ensures value == "\r" && HasPrefix(rest, "\n")
  {
    assert (value + rest)[0] == '\r' && (value + rest)[1] == '\n';
    assert value == [value[0]];
  }

  lemma CrLfPrefix(rest: string)
    requires HasPrefix(rest, "\n")
    ensures HasPrefix("\r" + rest, "\r\n")
  {
    assert "\r" + rest == "\r\n" + rest[1..];
  }

  lemma ReceivedTail(crlf: bool, value: string, rest: string)
    requires value != "" && !NeedsQuotes(value)
    requires !(crlf && HasPrefix(value + rest, "\r\n"))
    ensures Received(crlf, value, rest) == [value[0]] + Received(crlf, value[1..], rest)
  {
    assert value == [value[0]] + value[1..];
    if crlf && HasPrefix(rest, "\n") {
      CrLfPrefix(rest);
      assert HasSuffix(value, "\r") && |value| == 1 ==> value == "\r";
      if |value| > 1 {
        assert HasSuffix(value, "\r") <==> HasSuffix(value[1..], "\r");
        assert value[..|value| - 1] == [value[0]] + value[1..][..|value| - 2];
      }
    }
  }

  lemma ScanField(crlf: bool, value: string, rest: string, record: seq<string>, records: seq<seq<string>>)
    requires FieldEnds(rest)
    ensures Scan(crlf, EscapeCSV(value) + rest, AtStart, "", record, records)
         == After(crlf, rest, Received(crlf, value, rest), record, records)
  {
    if NeedsQuotes(value) {
      var s := EscapeCSV(value) + rest;
      assert s[1..] == Doubled(value) + "\"" + rest;
      ScanQuoted(crlf, value, rest, "", record, records);
      assert "" + value == value;
    } else {
      ScanPlain(crlf, value, rest, AtStart, "", record, records);
      assert "" + Received(crlf, value, rest) == Received(crlf, value, rest);
    }
  }

  /** A record as read when `rest` follows it. */
  function ReceivedRecord(crlf: bool, cells: seq<string>, rest: string): seq<string>
    requires cells != []
  {
    cells[..|cells| - 1] + [Received(crlf, cells[|cells| - 1], rest)]
  }

  /** The scan goes on after a whole record. */
  function AfterRecord(crlf: bool, rest: string, records: seq<seq<string>>): Option<seq<seq<string>>> {
    if rest == "" then Some(records) else Scan(crlf, rest[1..], AtStart, "", [], records)
  }

  lemma LineCons(cells: seq<string>)
    requires cells != []
    ensures |cells| == 1 ==> Line(cells) == EscapeCSV(cells[0])
    ensures |cells| > 1 ==> Line(cells) == EscapeCSV(cells[0]) + "," + Line(cells[1..])
  {
    if |cells| > 1 { assert Escaped(cells)[1..] == Escaped(cells[1..]); }
  }

  lemma LinesCons(table: seq<seq<string>>)
    requires table != []
    ensures |table| == 1 ==> Join(Lines(table), '\n') == Line(table[0])
    ensures |table| > 1 ==> Join(Lines(table), '\n') == Line(table[0]) + "\n" + Join(Lines(table[1..]), '\n')
  {
    if |table| > 1 { assert Lines(table)[1..] == Lines(table[1..]); }
  }

  lemma {:induction false} ScanRecord(crlf: bool, cells: seq<string>, rest: string, record: seq<string>,
                                      records: seq<seq<string>>)
    requires cells != [] && (rest == "" || rest[0] == '\n')
    ensures Scan(crlf, Line(cells) + rest, AtStart, "", record, records)
         == AfterRecord(crlf, rest, records + [record + ReceivedRecord(crlf, cells, rest)])
    decreases |cells|
  {
    LineCons(cells);
    var first := cells[0];
    if |cells| == 1 {
      ScanField(crlf, first, rest, record, records);
      assert ReceivedRecord(crlf, cells, rest) == [Received(crlf, first, rest)];
    } else {
      LineMore(cells, rest);
      ScanField(crlf, first, "," + (Line(cells[1..]) + rest), record, records);
      ScanRecord(crlf, cells[1..], rest, record + [first], records);
      ReceivedMore(crlf, cells, rest, record);
    }
  }

  lemma LineMore(cells: seq<string>, rest: string)
    requires |cells| > 1
    ensures Line(cells) + rest == EscapeCSV(cells[0]) + ("," + (Line(cells[1..]) + rest))
  {
    LineCons(cells);
  }

  lemma ReceivedMore(crlf: bool, cells: seq<string>, rest: string, record: seq<string>)
    requires |cells| > 1
    ensures record + [cells[0]] + ReceivedRecord(crlf, cells[1..], rest) == record + ReceivedRecord(crlf, cells, rest)
  {
    assert cells[..|cells| - 1] == [cells[0]] + cells[1..][..|cells| - 2];
  }

  predicate NoEmptyRecord(table: seq<seq<string>>) {
    forall i :: 0 <= i < |table| ==> table[i] != []
  }

  /** A table as a reader sees it: the last record ends the file, the others are
      followed by a line break. */
  function ReceivedTable(crlf: bool, table: seq<seq<string>>): seq<seq<string>>
    requires NoEmptyRecord(table)
  {
    seq(|table|, i requires 0 <= i < |table| =>
      ReceivedRecord(crlf, table[i], if i + 1 < |table| then "\n" else ""))
  }

  lemma ReceivedTableCons(crlf: bool, table: seq<seq<string>>)
    requires table != [] && NoEmptyRecord(table)
    ensures |table| == 1 ==> ReceivedTable(crlf, table) == [ReceivedRecord(crlf, table[0], "")]
    ensures |table| > 1 ==>
              ReceivedTable(crlf, table) == [ReceivedRecord(crlf, table[0], "\n")] + ReceivedTable(crlf, table[1..])
  {
  }

  lemma {:induction false} ScanTable(crlf: bool, table: seq<seq<string>>, records: seq<seq<string>>)
    requires table != [] && NoEmptyRecord(table)
    ensures Scan(crlf, Join(Lines(table), '\n'), AtStart, "", [], records)
         == Some(records + ReceivedTable(crlf, table))
    decreases |table|
  {
    LinesCons(table);
    ReceivedTableCons(crlf, table);
    var first := table[0];
    if |table| == 1 {
      ScanRecord(crlf, first, "", [], records);
      assert Line(first) + "" == Line(first);
      assert [] + ReceivedRecord(crlf, first, "") == ReceivedRecord(crlf, first, "");
    } else {
      var rest := "\n" + Join(Lines(table[1..]), '\n');
      var read := ReceivedRecord(crlf, first, "\n");
      ScanRecord(crlf, first, rest, [], records);
      assert Line(first) + rest == Join(Lines(table), '\n');
      assert [] + ReceivedRecord(crlf, first, rest) == read;
      ScanTable(crlf, table[1..], records + [read]);
      assert records + [read] + ReceivedTable(crlf, table[1..]) == records + ReceivedTable(crlf, table);
    }
  }

  /** Printing, then reading with LF as the separator, gives back every header and
      cell, whatever mix of commas, quotes and line breaks they hold. */
  lemma ReadBack(table: seq<seq<string>>)
    requires table != [] && NoEmptyRecord(table)
    ensures Read(false, Join(Lines(table), '\n')) == Some(table)
  {
    ScanTable(false, table, []);
    var read := ReceivedTable(false, table);
    assert [] + read == read;
    forall i | 0 <= i < |table|
      ensures read[i] == table[i]
    {
      var n := |table[i]| - 1;
      assert table[i] == table[i][..n] + [table[i][n]];
    }
    assert read == table;
  }

  /** A CR that the printer leaves bare at the end of a record that is not the last. */
  predicate BareCr(table: seq<seq<string>>, i: nat)
    requires i < |table| && table[i] != []
  {
    var last := table[i][|table[i]| - 1];
    i + 1 < |table| && HasSuffix(last, "\r") && !NeedsQuotes(last)
  }

  lemma RecordReceived(table: seq<seq<string>>, i: nat)
    requires i < |table| && table[i] != []
    ensures ReceivedRecord(true, table[i], if i + 1 < |table| then "\n" else "") == table[i] <==> !BareCr(table, i)
  {
    var n := |table[i]| - 1;
    var read := ReceivedRecord(true, table[i], if i + 1 < |table| then "\n" else "");
    assert read[n] == table[i][n] <==> !BareCr(table, i);
    assert table[i] == table[i][..n] + [table[i][n]];
  }

  /** A reader that also takes CR LF for a record separator gets the same table
      exactly when no such CR is printed. */
  lemma ReadBackCrLf(table: seq<seq<string>>)
    requires table != [] && NoEmptyRecord(table)
    ensures Read(true, Join(Lines(table), '\n')) == Some(table) <==>
            forall i :: 0 <= i < |table| ==> !BareCr(table, i)
  {
    ScanTable(true, table, []);
    EmptyConcat(ReceivedTable(true, table));
    ReceivedUnchanged(table);
  }

  lemma ReceivedUnchanged(table: seq<seq<string>>)
    requires NoEmptyRecord(table)
    ensures ReceivedTable(true, table) == table <==> forall i :: 0 <= i < |table| ==> !BareCr(table, i)
  {
    var read := ReceivedTable(true, table);
    forall i | 0 <= i < |table|
      ensures read[i] == table[i] <==> !BareCr(table, i)
    {
      RecordReceived(table, i);
    }
    if forall i :: 0 <= i < |table| ==> !BareCr(table, i) { SameElements(read, table); }
  }

  /** A reader for which a line break may also end the last record, as rule 2 of
      section 2 of RFC 4180 allows: a closing empty record is that line break. */
  function ReadTerminated(s: string): Option<seq<seq<string>>> {
    match Read(false, s)
    case None => None
    case Some(records) =>
      if |records| > 1 && records[|records| - 1] == [""] then Some(records[..|records| - 1]) else Some(records)
  }

  /** Such a reader gets the whole table exactly when the table does not close with
      a record made of one empty cell. */
  lemma ReadBackTerminated(table: seq<seq<string>>)
    requires |table| > 1 && NoEmptyRecord(table)
    ensures ReadTerminated(Join(Lines(table), '\n')) == Some(table) <==> table[|table| - 1] != [""]
  {
    ReadBack(table);
  }

  /** A cell that ends in CR, in the first of two records, loses it to such a reader. */
  lemma BareCrIsLost(table: seq<seq<string>>)
    requires table == [["a\r"], ["b"]]
    ensures Read(true, Join(Lines(table), '\n')) == Some([["a"], ["b"]])
  {
    ScanTable(true, table, []);
    EmptyConcat(ReceivedTable(true, table));
    LosesCr("a\r");
    var read := ReceivedTable(true, table);
    assert |read| == 2 && read[0] == ["a"] && read[1] == ["b"];
    assert read == [["a"], ["b"]];
  }

  lemma LosesCr(value: string)
    requires value == "a\r"
    ensures Received(true, value, "\n") == "a"
  {
    assert value[1..] == "\r" && value[..1] == "a";
  }

  /** A record of one empty cell at the end is taken for a line break. */
  lemma EmptyEndIsLost()
    ensures ReadTerminated(Join(Lines([["a"], [""]]), '\n')) == Some([["a"]])
  {
    ReadBack([["a"], [""]]);
    assert [["a"], [""]][..1] == [["a"]];
  }
}
