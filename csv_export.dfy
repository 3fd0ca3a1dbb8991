/** The CSV text of the "Export to CSV" button: every line of the generated
    output becomes one double-quoted record, with its quotes doubled, and
    the records are joined by CRLF. A decoder written beside it reads such
    a text back into the output it came from. */
module CsvExport {
  import opened Text

  /** `line.replace(/"/g, '""')`: every double quote is doubled, everything
      else is kept. */
  function EscapeQuotes(line: string): (r: string)
    ensures |r| == |line| + multiset(line)['"']
    ensures multiset(r)['"'] == 2 * multiset(line)['"']
    ensures forall c :: c != '"' ==> multiset(r)[c] == multiset(line)[c]
    decreases |line|
  {
    if line == [] then []
    else
      assert line == [line[0]] + line[1..];
      (if line[0] == '"' then "\"\"" else [line[0]]) + EscapeQuotes(line[1..])
  }

  /** One record: the escaped line between two double quotes. */
  function QuoteRecord(line: string): (r: string)
    ensures |r| >= 2 && r[0] == '"' && r[|r| - 1] == '"'
    ensures r[1..|r| - 1] == EscapeQuotes(line)
  {
    "\"" + EscapeQuotes(line) + "\""
  }

  /** The records, one per `\n`-separated line of the output, in order. */
  function Records(output: string): (rs: seq<string>)
    ensures |rs| == |Split(output, '\n')|
    ensures forall i :: 0 <= i < |rs| ==> rs[i] == QuoteRecord(Split(output, '\n')[i])
    ensures UnquoteAll(rs) == Some(Split(output, '\n'))
  {
    var lines := Split(output, '\n');
    var rs := seq(|lines|, i requires 0 <= i < |lines| => QuoteRecord(lines[i]));
    UnquoteAllQuoted(rs, lines);
    rs
  }

  /** The CSV text: the records joined by CRLF. */
  function CsvText(output: string): string {
    Join(Records(output), "\r\n")
  }

  /** `exportToCsv`: nothing is exported for an empty output; otherwise the
      exported text is the CSV text, which reads back into the output. */
  function ExportToCsv(output: string): (csv: Option<string>)
    ensures csv.None? <==> output == ""
    ensures csv.Some? ==> csv.value == CsvText(output) && DecodeCsv(csv.value) == Some(output)
  {
    if output == "" then None
    else
      RoundTrip(output);
      Some(CsvText(output))
  }

  /** There is one record per line: one more than the output has newlines. */
  lemma RecordCount(output: string)
    ensures |Records(output)| == multiset(output)['\n'] + 1
  {
  }

  /** The inverse of `EscapeQuotes`: a pair of quotes stands for one quote,
      and a quote on its own makes the text malformed. */
  function Unescape(s: string): Option<string>
    decreases |s|
  {
    if s == [] then Some([])
    else if s[0] != '"' then
      match Unescape(s[1..])
      case Some(t) => Some([s[0]] + t)
      case None => None
    else if |s| >= 2 && s[1] == '"' then
      match Unescape(s[2..])
      case Some(t) => Some(['"'] + t)
      case None => None
    else None
  }

  /** The line a record holds, if it is a well-formed quoted record. */
  function UnquoteRecord(record: string): Option<string> {
    if |record| >= 2 && record[0] == '"' && record[|record| - 1] == '"' then Unescape(record[1..|record| - 1])
    else None
  }

  /** The lines the records hold, if every record is well formed. */
  function UnquoteAll(records: seq<string>): Option<seq<string>>
    decreases |records|
  {
    if records == [] then Some([])
    else
      match (UnquoteRecord(records[0]), UnquoteAll(records[1..]))
      case (Some(l), Some(ls)) => Some([l] + ls)
      case _ => None
  }

  /** A piece of the text split on `\n` without the `\r` of its CRLF. */
  function DropCr(piece: string): string {
    if piece != [] && piece[|piece| - 1] == '\r' then piece[..|piece| - 1] else piece
  }

  /** The records of a CSV text: it is split at each `\n`, and every piece but
      the last loses the `\r` before it. */
  function SplitRecords(csv: string): seq<string> {
    StripCr(Split(csv, '\n'))
  }

  /** Every piece but the last without its final `\r`. */
  function StripCr(pieces: seq<string>): (r: seq<string>)
    ensures |r| == |pieces|
    ensures forall i :: 0 <= i < |pieces| ==> r[i] == if i < |pieces| - 1 then DropCr(pieces[i]) else pieces[i]
  {
    seq(|pieces|, i requires 0 <= i < |pieces| => if i < |pieces| - 1 then DropCr(pieces[i]) else pieces[i])
  }

  /** Reads a CSV text back into the output it was made from. */
  function DecodeCsv(csv: string): Option<string> {
    match UnquoteAll(SplitRecords(csv))
    case Some(lines) => Some(Join(lines, "\n"))
    case None => None
  }

  /** Un-doubling the quotes gives the line back. */
  lemma {:induction false} UnescapeEscape(line: string)
    ensures Unescape(EscapeQuotes(line)) == Some(line)
    decreases |line|
  {
    if line != [] {
      assert [line[0]] + line[1..] == line;
      UnescapeEscape(line[1..]);
      var rest, e := EscapeQuotes(line[1..]), EscapeQuotes(line);
      if line[0] == '"' {
        assert e == "\"\"" + rest;
        assert e[0] == '"' && e[1] == '"' && e[2..] == rest;
        assert Unescape(e) == Some(['"'] + line[1..]);
      } else {
        assert e == [line[0]] + rest;
        assert e[0] == line[0] && e[1..] == rest;
        assert Unescape(e) == Some([line[0]] + line[1..]);
      }
    }
  }

  /** Removing the outer quotes and un-doubling the inner ones gives the line back. */
  lemma UnquoteQuote(line: string)
    ensures UnquoteRecord(QuoteRecord(line)) == Some(line)
  {
    UnescapeEscape(line);
  }

  /** Records made by quoting lines give those lines back, in order. */
  lemma {:induction false} UnquoteAllQuoted(rs: seq<string>, lines: seq<string>)
    requires |rs| == |lines|
    requires forall i :: 0 <= i < |rs| ==> rs[i] == QuoteRecord(lines[i])
    ensures UnquoteAll(rs) == Some(lines)
    decreases |lines|
  {
    if lines != [] {
      UnquoteQuote(lines[0]);
      UnquoteAllQuoted(rs[1..], lines[1..]);
      assert [lines[0]] + lines[1..] == lines;
    }
  }

  /** Every piece but the last, with a `\r` at its end. */
  function WithCr(parts: seq<string>): (r: seq<string>)
    ensures |r| == |parts|
    ensures forall i :: 0 <= i < |parts| ==> r[i] == if i < |parts| - 1 then parts[i] + "\r" else parts[i]
  {
    seq(|parts|, i requires 0 <= i < |parts| => if i < |parts| - 1 then parts[i] + "\r" else parts[i])
  }

  /** Joining by CRLF is joining, by LF, the pieces with a `\r` added to all but the last. */
  lemma {:induction false} JoinCrLf(parts: seq<string>)
    ensures Join(parts, "\r\n") == Join(WithCr(parts), "\n")
    decreases |parts|
  {
    if |parts| > 1 {
      JoinCrLf(parts[1..]);
      assert WithCr(parts)[1..] == WithCr(parts[1..]);
      assert "\r\n" == "\r" + "\n";
      Assoc(parts[0], "\r", "\n");
      Assoc(parts[0] + "\r", "\n", Join(WithCr(parts[1..]), "\n"));
      Assoc(parts[0], "\r\n", Join(parts[1..], "\r\n"));
    }
  }

  /** No record holds a newline: the output was split at every one of them. */
  lemma RecordsHaveNoNewline(output: string)
    ensures forall i :: 0 <= i < |Records(output)| ==> '\n' !in Records(output)[i]
  {
    var lines, rs := Split(output, '\n'), Records(output);
    forall i | 0 <= i < |rs| ensures '\n' !in rs[i] {
      QuoteRecordNoNewline(lines[i]);
    }
  }

  /** Quoting adds no newline. */
  lemma QuoteRecordNoNewline(line: string)
    requires '\n' !in line
    ensures '\n' !in QuoteRecord(line)
  {
    var e := EscapeQuotes(line);
    assert multiset(e)['\n'] == 0;
    assert QuoteRecord(line) == "\"" + e + "\"";
  }

  /** The CSV text splits at its newlines into exactly the records, each but
      the last followed by its `\r`. */
  lemma CsvPieces(output: string)
    ensures Split(CsvText(output), '\n') == WithCr(Records(output))
  {
    var rs := Records(output);
    JoinCrLf(rs);
    RecordsHaveNoNewline(output);
    forall i | 0 <= i < |rs| ensures '\n' !in WithCr(rs)[i] {
      if i < |rs| - 1 {
        assert WithCr(rs)[i] == rs[i] + "\r";
      }
    }
    SplitJoin(WithCr(rs), '\n');
  }

  /** Splitting the CSV text into records gives back the records. */
  lemma SplitRecordsOfCsv(output: string)
    ensures SplitRecords(CsvText(output)) == Records(output)
  {
    CsvPieces(output);
    StripWithCr(Records(output));
  }

  /** Taking the `\r` off again gives the pieces back. */
  lemma StripWithCr(parts: seq<string>)
    ensures StripCr(WithCr(parts)) == parts
  {
    forall i | 0 <= i < |parts| - 1 ensures DropCr(parts[i] + "\r") == parts[i] {
      assert (parts[i] + "\r")[..|parts[i]|] == parts[i];
    }
  }

  /** Reading the CSV text back gives the output exactly. */
  lemma RoundTrip(output: string)
    ensures DecodeCsv(CsvText(output)) == Some(output)
  {
    SplitRecordsOfCsv(output);
  }

  /** The CSV text has as many newlines as the output: one per CRLF between records. */
  lemma NewlineCount(output: string)
    ensures multiset(CsvText(output))['\n'] == multiset(output)['\n']
  {
    CsvPieces(output);
  }
}
