/** The price-list reader of ImportEC2Pricing: five metadata lines read one
    character at a time and checked against the expected field names, then
    the header row and the data rows of the table that follows. */
module Pricing {
  import opened Wrappers
  import opened Text
  import opened Stream

  /** PRICE_LIST_HEADER_FIELDS: the first field each metadata line must hold,
      in order. */
  const HEADER_FIELDS: seq<string> :=
    ["FormatVersion", "Disclaimer", "Publication Date", "Version", "OfferCode"]

  datatype PricingError =
    | IncorrectHeaderField(field: string)   // 'Incorrect header field detected: …'
    | MissingColumn(line: nat, column: nat) // IndexError from row[0] or row[1]
    | NoHeaderRow                           // StopIteration from next() on an empty reader

  /** A collections.OrderedDict from str to str: its keys in insertion order
      and its key-to-value mapping. */
  datatype OrderedDict = OrderedDict(keys: seq<string>, values: map<string, string>)
  {
    ghost predicate Valid()
    {
      && (forall i, j :: 0 <= i < j < |keys| ==> keys[i] != keys[j])
      && (forall k :: k in values <==> k in keys)
    }

    /** d[k] = v: a new key goes after all others, an existing key keeps its
        place and takes the new value. */
    function Set(k: string, v: string): (d: OrderedDict)
      requires Valid()
      ensures d.Valid()
      ensures d.values == values[k := v]
      ensures d.keys == if k in keys then keys else keys + [k]
    {
      if k in values then OrderedDict(keys, values[k := v])
      else OrderedDict(keys + [k], values[k := v])
    }
  }

  const EMPTY_DICT := OrderedDict([], map[])

  /** A metadata row that passes the check: its first field is the expected
      name and it has a second field to store. */
  predicate RowMatches(row: Row, expected: string)
  {
    |row| >= 2 && row[0] == expected
  }

  /** One pass of the validation loop on row number `line`: row[0] is
      compared with the expected name, then row[1] is read. */
  function CheckRow(row: Row, expected: string, line: nat): (r: Result<string, PricingError>)
    ensures r.Success? <==> RowMatches(row, expected)
    ensures r.Success? ==> r.value == row[1]
    ensures |row| > 0 && row[0] != expected ==> r == Failure(IncorrectHeaderField(row[0]))
  {
    if |row| == 0 then Failure(MissingColumn(line, 0))
    else if row[0] != expected then Failure(IncorrectHeaderField(row[0]))
    else if |row| < 2 then Failure(MissingColumn(line, 1))
    else Success(row[1])
  }

  /** How many (row, expected name) pairs zip() forms. */
  function Zipped(rows: seq<Row>): nat
  {
    if |rows| < |HEADER_FIELDS| then |rows| else |HEADER_FIELDS|
  }

  /** The validation loop from pair i on, with acc the dictionary built so far. */
  function ParseMetadataFrom(rows: seq<Row>, i: nat, acc: OrderedDict): Result<OrderedDict, PricingError>
    requires acc.Valid()
    decreases |rows| - i
  {
    if i >= Zipped(rows) then Success(acc)
    else
      match CheckRow(rows[i], HEADER_FIELDS[i], i)
      case Failure(e) => Failure(e)
      case Success(v) => ParseMetadataFrom(rows, i + 1, acc.Set(rows[i][0], v))
  }

  /** The metadata dictionary built from the parsed metadata rows, or the
      error the first bad row raises. */
  function ParseMetadata(rows: seq<Row>): Result<OrderedDict, PricingError>
  {
    ParseMetadataFrom(rows, 0, EMPTY_DICT)
  }

  lemma HeaderFieldsDistinct()
    ensures forall i, j :: 0 <= i < j < |HEADER_FIELDS| ==> HEADER_FIELDS[i] != HEADER_FIELDS[j]
  {
    assert |HEADER_FIELDS[0]| == 13 && |HEADER_FIELDS[1]| == 10 && |HEADER_FIELDS[2]| == 16;
    assert |HEADER_FIELDS[3]| == 7 && |HEADER_FIELDS[4]| == 9;
  }

  /** The loop from pair i on fails exactly when some later pair fails the
      check, and then with the error of the first such pair. */
  lemma {:induction false} ParseMetadataFromFails(rows: seq<Row>, i: nat, acc: OrderedDict)
    requires acc.Valid() && i <= Zipped(rows)
    ensures var r := ParseMetadataFrom(rows, i, acc);
      && (r.Success? <==> forall j :: i <= j < Zipped(rows) ==> RowMatches(rows[j], HEADER_FIELDS[j]))
      && (r.Failure? ==> exists j: nat :: FirstMismatch(rows, i, j) && r.error == CheckRow(rows[j], HEADER_FIELDS[j], j).error)
    decreases Zipped(rows) - i
  {
    if i < Zipped(rows) {
      var check := CheckRow(rows[i], HEADER_FIELDS[i], i);
      if check.Success? {
        var next := acc.Set(rows[i][0], check.value);
        ParseMetadataFromFails(rows, i + 1, next);
        var r := ParseMetadataFrom(rows, i + 1, next);
        if r.Failure? {
          var j: nat :| FirstMismatch(rows, i + 1, j) && r.error == CheckRow(rows[j], HEADER_FIELDS[j], j).error;
          assert FirstMismatch(rows, i, j);
        }
      } else {
        assert FirstMismatch(rows, i, i);
      }
    }
  }

  /** Pair j is the first pair from i on that fails the check. */
  ghost predicate FirstMismatch(rows: seq<Row>, i: nat, j: nat)
  {
    && i <= j < Zipped(rows)
    && (forall l :: i <= l < j ==> RowMatches(rows[l], HEADER_FIELDS[l]))
    && !RowMatches(rows[j], HEADER_FIELDS[j])
  }

  /** The first i pairs are stored in acc: their expected names in order,
      each mapped to its row's second field. */
  ghost predicate BuiltUpTo(rows: seq<Row>, i: nat, acc: OrderedDict)
  {
    && i <= Zipped(rows)
    && acc.Valid()
    && acc.keys == HEADER_FIELDS[..i]
    && (forall j :: 0 <= j < i ==>
          RowMatches(rows[j], HEADER_FIELDS[j]) && HEADER_FIELDS[j] in acc.values && acc.values[HEADER_FIELDS[j]] == rows[j][1])
  }

  /** Storing a passing pair i extends what is stored by that pair. */
  lemma BuiltStep(rows: seq<Row>, i: nat, acc: OrderedDict)
    requires BuiltUpTo(rows, i, acc) && i < Zipped(rows) && RowMatches(rows[i], HEADER_FIELDS[i])
    ensures BuiltUpTo(rows, i + 1, acc.Set(rows[i][0], rows[i][1]))
  {
    HeaderFieldsDistinct();
    var key := rows[i][0];
    assert key !in HEADER_FIELDS[..i];
    var next := acc.Set(key, rows[i][1]);
    assert next.keys == HEADER_FIELDS[..i + 1];
  }

  /** When every pair from i on passes, the loop appends the remaining
      expected names in order and stores each row's second field. */
  lemma {:induction false} ParseMetadataFromBuilds(rows: seq<Row>, i: nat, acc: OrderedDict)
    requires BuiltUpTo(rows, i, acc)
    requires forall j :: i <= j < Zipped(rows) ==> RowMatches(rows[j], HEADER_FIELDS[j])
    ensures ParseMetadataFrom(rows, i, acc).Success?
    ensures BuiltUpTo(rows, Zipped(rows), ParseMetadataFrom(rows, i, acc).value)
    decreases Zipped(rows) - i
  {
    if i < Zipped(rows) {
      BuiltStep(rows, i, acc);
      ParseMetadataFromBuilds(rows, i + 1, acc.Set(rows[i][0], rows[i][1]));
    }
  }

  /** The metadata check succeeds exactly when every zipped row has the
      expected first field and a second field, and then the keys are the
      expected names in order, each mapped to its row's second field. */
  lemma ParseMetadataSucceeds(rows: seq<Row>)
    ensures var r := ParseMetadata(rows);
      && (r.Success? <==> forall j :: 0 <= j < Zipped(rows) ==> RowMatches(rows[j], HEADER_FIELDS[j]))
      && (r.Success? ==> r.value.Valid() && r.value.keys == HEADER_FIELDS[..Zipped(rows)])
      && (r.Success? ==> forall j :: 0 <= j < Zipped(rows) ==>
            RowMatches(rows[j], HEADER_FIELDS[j]) && r.value.values[HEADER_FIELDS[j]] == rows[j][1])
  {
    ParseMetadataFromFails(rows, 0, EMPTY_DICT);
    if ParseMetadata(rows).Success? {
      ParseMetadataFromBuilds(rows, 0, EMPTY_DICT);
    }
  }

  /** The metadata check fails exactly when some zipped row fails, and then
      with the error of the first such row, which for a wrong first field
      carries that field. */
  lemma ParseMetadataFails(rows: seq<Row>)
    ensures var r := ParseMetadata(rows);
      && (r.Failure? <==> exists j: nat :: FirstMismatch(rows, 0, j))
      && (r.Failure? ==> exists j: nat :: FirstMismatch(rows, 0, j) && r.error == CheckRow(rows[j], HEADER_FIELDS[j], j).error)
  {
    ParseMetadataFromFails(rows, 0, EMPTY_DICT);
    var r := ParseMetadata(rows);
    if exists j: nat :: FirstMismatch(rows, 0, j) {
      var j: nat :| FirstMismatch(rows, 0, j);
      assert !RowMatches(rows[j], HEADER_FIELDS[j]);
    }
  }

  /** The validation half of _get_pricing_metadata: zip the parsed rows with
      the expected names, check each first field and store each second field. */
  method ValidateMetadata(rows: seq<Row>) returns (r: Result<OrderedDict, PricingError>)
    ensures r == ParseMetadata(rows)
  {
    var metadata := EMPTY_DICT;
    var i := 0;
    while i < |rows| && i < |HEADER_FIELDS|
      invariant i <= Zipped(rows)
      invariant metadata.Valid()
      invariant ParseMetadataFrom(rows, i, metadata) == ParseMetadata(rows)
    {
      var row := rows[i];
      if |row| == 0 {
        return Failure(MissingColumn(i, 0));
      }
      if row[0] != HEADER_FIELDS[i] {
        return Failure(IncorrectHeaderField(row[0]));
      }
      if |row| < 2 {
        return Failure(MissingColumn(i, 1));
      }
      metadata := metadata.Set(row[0], row[1]);
      i := i + 1;
    }
    return Success(metadata);
  }

  /** The inner loop of _get_pricing_metadata: read(1) until the character
      read is a newline, returning what was read. */
  method ReadLine(stream: CharStream) returns (line: string)
    requires stream.Valid() && CountNewlines(stream.text[stream.pos..]) > 0
    modifies stream
    ensures stream.Valid()
    ensures stream.pos == LineEnd(stream.text, old(stream.pos))
    ensures line == stream.text[old(stream.pos)..stream.pos]
  {
    ghost var lineStart := stream.pos;
    ghost var text := stream.text;
    ghost var e := LineEnd(text, lineStart);
    line := "";
    var c := "";  // None in the source: like None, it differs from "\n"
    while c != "\n"
      invariant stream.Valid() && stream.text == text && lineStart <= stream.pos
      invariant line == text[lineStart..stream.pos]
      invariant c != "\n" ==> CountNewlines(text[stream.pos..]) > 0 && LineEnd(text, stream.pos) == e
      invariant c == "\n" ==> stream.pos == e
      decreases |text| - stream.pos
    {
      ghost var p := stream.pos;
      LineEndStep(text, p);
      c := stream.Read1();
      assert c == "\n" <==> text[p] == '\n' by {
        assert c[0] == text[p];
      }
      SliceSnoc(text, lineStart, p);
      line := line + c;
    }
  }

  /** The reading half of _get_pricing_metadata: `count` calls of ReadLine,
      all collected in one buffer. */
  method ReadLines(stream: CharStream, count: nat) returns (buf: string)
    requires stream.Valid()
    requires CountNewlines(stream.text[stream.pos..]) >= count
    modifies stream
    ensures stream.Valid()
    ensures stream.pos == LinesEnd(stream.text, old(stream.pos), count)
    ensures buf == stream.text[old(stream.pos)..stream.pos]
  {
    ghost var start := stream.pos;
    buf := "";
    ghost var text := stream.text;
    for i := 0 to count
      invariant stream.Valid() && start <= stream.pos
      invariant CountNewlines(text[start..]) >= count
      invariant stream.pos == LinesEnd(text, start, i)
      invariant buf == text[start..stream.pos]
    {
      ghost var p := stream.pos;
      var line := ReadLine(stream);
      SliceConcat(text, start, p, stream.pos);
      buf := buf + line;
    }
  }

  /** _get_pricing_metadata: takes characters one at a time until it has
      taken as many newline-terminated lines as there are expected names,
      then validates those lines. The stream is left just past the last
      newline taken, at the table's header line. With fewer newlines left the
      source never returns (read(1) yields '' forever), hence the requires. */
  method GetPricingMetadata(stream: CharStream) returns (r: Result<OrderedDict, PricingError>)
    requires stream.Valid()
    requires CountNewlines(stream.text[stream.pos..]) >= |HEADER_FIELDS|
    modifies stream
    ensures stream.Valid()
    ensures stream.pos == LinesEnd(stream.text, old(stream.pos), |HEADER_FIELDS|)
    ensures r == ParseMetadata(Records(stream.text[old(stream.pos)..stream.pos]))
  {
    var buf := ReadLines(stream, |HEADER_FIELDS|);
    r := ValidateMetadata(Records(buf));
  }

  /** _get_pricing_lines: the first record of the rest of the stream is the
      header, every later record is a data row, in input order; with no
      record at all next() raises StopIteration. */
  method GetPricingLines(stream: CharStream) returns (r: Result<(Row, seq<Row>), PricingError>)
    requires stream.Valid()
    modifies stream
    ensures stream.Valid() && stream.pos == |stream.text|
    ensures var records := Records(old(stream.text[stream.pos..]));
      && (r.Success? <==> |records| > 0)
      && (r.Failure? ==> r.error == NoHeaderRow)
      && (r.Success? ==> r.value.0 == records[0] && r.value.1 == records[1..])
  {
    var rest := stream.ReadRest();
    var records := Records(rest);
    if |records| == 0 {
      return Failure(NoHeaderRow);
    }
    var header := records[0];
    var data := [];
    for k := 1 to |records|
      invariant data == records[1..k]
    {
      data := data + [records[k]];
    }
    return Success((header, data));
  }

  /** The result of _get_pricing_data once the metadata check has given
      `metadata` and the rest of the response has given `records`. */
  function Assemble(metadata: Result<OrderedDict, PricingError>, records: seq<Row>)
    : Result<(OrderedDict, Row, seq<Row>), PricingError>
  {
    match metadata
    case Failure(err) => Failure(err)
    case Success(m) =>
      if records == [] then Failure(NoHeaderRow)
      else Success((m, records[0], records[1..]))
  }

  /** What _get_pricing_data returns for the decoded response `text`: the
      metadata from the first five lines, then the header and data rows from
      the rest, or the first error raised. */
  function PricingData(text: string): Result<(OrderedDict, Row, seq<Row>), PricingError>
    requires CountNewlines(text) >= |HEADER_FIELDS|
  {
    var e := LinesEnd(text, 0, |HEADER_FIELDS|);
    Assemble(ParseMetadata(Records(text[..e])), Records(text[e..]))
  }

  /** _get_pricing_data without the network: both readers share one stream,
      the second starting where the first stopped. */
  method GetPricingData(text: string) returns (r: Result<(OrderedDict, Row, seq<Row>), PricingError>)
    requires CountNewlines(text) >= |HEADER_FIELDS|
    ensures r == PricingData(text)
  {
    var stream := new CharStream(text);
    assert text[stream.pos..] == text;
    var metadata := GetPricingMetadata(stream);
    assert text[0..stream.pos] == text[..stream.pos];
    if metadata.Failure? {
      return Failure(metadata.error);
    }
    var lines := GetPricingLines(stream);
    if lines.Failure? {
      return Failure(lines.error);
    }
    return Success((metadata.value, lines.value.0, lines.value.1));
  }

  /** On a response written as lines, the reader takes the metadata from
      the first five lines and the header and data rows from the rest. */
  lemma PricingDataSplitsLines(lines: seq<string>)
    requires |lines| >= |HEADER_FIELDS|
    requires forall i :: 0 <= i < |lines| ==> '\n' !in lines[i]
    ensures CountNewlines(JoinLines(lines)) >= |HEADER_FIELDS|
    ensures PricingData(JoinLines(lines)) ==
      Assemble(ParseMetadata(FieldsOf(lines[..|HEADER_FIELDS|])), FieldsOf(lines[|HEADER_FIELDS|..]))
  {
    RecordsSplitAt(lines, |HEADER_FIELDS|);
  }

  /** On lines, the metadata check and the header row decide the result:
      it is a success exactly when there is a line after the five metadata
      lines and each metadata line passes the check. */
  lemma AssembleOfLines(lines: seq<string>)
    requires |lines| >= |HEADER_FIELDS|
    ensures var r := Assemble(ParseMetadata(FieldsOf(lines[..|HEADER_FIELDS|])), FieldsOf(lines[|HEADER_FIELDS|..]));
      && (r.Success? <==>
            |lines| > |HEADER_FIELDS|
            && forall i :: 0 <= i < |HEADER_FIELDS| ==> RowMatches(Fields(lines[i]), HEADER_FIELDS[i]))
      && (r.Success? ==> r.value.0.Valid() && r.value.0.keys == HEADER_FIELDS)
      && (r.Success? ==> forall i :: 0 <= i < |HEADER_FIELDS| ==>
            RowMatches(Fields(lines[i]), HEADER_FIELDS[i]) && r.value.0.values[HEADER_FIELDS[i]] == Fields(lines[i])[1])
  {
    var n := |HEADER_FIELDS|;
    var meta := FieldsOf(lines[..n]);
    assert Zipped(meta) == n;
    forall i | 0 <= i < n
      ensures meta[i] == Fields(lines[i])
    {
      assert lines[..n][i] == lines[i];
    }
    ParseMetadataSucceeds(meta);
    assert HEADER_FIELDS[..n] == HEADER_FIELDS;
  }

  /** A response written as lines parses exactly when there is a line after
      the five metadata lines and every metadata line starts with its
      expected name and has a value; the dictionary then holds the five names
      in order, each with its line's second field. */
  lemma PricingDataOfLines(lines: seq<string>)
    requires |lines| >= |HEADER_FIELDS|
    requires forall i :: 0 <= i < |lines| ==> '\n' !in lines[i]
    ensures CountNewlines(JoinLines(lines)) >= |HEADER_FIELDS|
    ensures var r := PricingData(JoinLines(lines));
      && (r.Success? <==>
            |lines| > |HEADER_FIELDS|
            && forall i :: 0 <= i < |HEADER_FIELDS| ==> RowMatches(Fields(lines[i]), HEADER_FIELDS[i]))
      && (r.Success? ==> r.value.0.Valid() && r.value.0.keys == HEADER_FIELDS)
      && (r.Success? ==> forall i :: 0 <= i < |HEADER_FIELDS| ==>
            RowMatches(Fields(lines[i]), HEADER_FIELDS[i]) && r.value.0.values[HEADER_FIELDS[i]] == Fields(lines[i])[1])
  {
    PricingDataSplitsLines(lines);
    AssembleOfLines(lines);
  }
}
