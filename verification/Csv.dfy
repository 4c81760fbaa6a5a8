/** The CSV reader of the bulk importer: a quote-aware line scanner, delimiter detection and the
    document parser, with the quoted form of section 2 of RFC 4180 as their inverse. */
module Csv {
  import opened Options
  import opened Text

  datatype Row = Row(rowNumber: nat, values: seq<string>)
  datatype Table = Table(headers: seq<string>, rows: seq<Row>)

  // ---------------------------------------------------------------- reading one line

  /** The cells of `line`, given the cell read so far and whether a quote is open. */
  function Scan(line: string, delimiter: char, inQuotes: bool, cell: string): (cells: seq<string>)
    ensures |cells| >= 1
    decreases |line|
  {
    if line == "" then [Trim(cell)]
    else if line[0] == '"' then
      if inQuotes && |line| > 1 && line[1] == '"' then Scan(line[2..], delimiter, true, cell + ['"'])
      else Scan(line[1..], delimiter, !inQuotes, cell)
    else if line[0] == delimiter && !inQuotes then [Trim(cell)] + Scan(line[1..], delimiter, false, "")
    else Scan(line[1..], delimiter, inQuotes, cell + [line[0]])
  }

  function SplitLine(line: string, delimiter: char): seq<string> {
    Scan(line, delimiter, false, "")
  }

  /** splitCsvLine: one pass over the characters, with a look-ahead for doubled quotes. */
  method SplitCsvLine(line: string, delimiter: char) returns (cells: seq<string>)
    ensures cells == SplitLine(line, delimiter)
  {
    cells := [];
    var cell := "";
    var inQuotes := false;
    var i := 0;
    while i < |line|
      invariant 0 <= i <= |line|
      invariant cells + Scan(line[i..], delimiter, inQuotes, cell) == SplitLine(line, delimiter)
    {
      var c := line[i];
      if c == '"' {
        if inQuotes && i + 1 < |line| && line[i + 1] == '"' {
          cell := cell + ['"'];
          i := i + 1;
        } else {
          inQuotes := !inQuotes;
        }
      } else if c == delimiter && !inQuotes {
        cells := cells + [Trim(cell)];
        cell := "";
      } else {
        cell := cell + [c];
      }
      i := i + 1;
    }
    cells := cells + [Trim(cell)];
  }

  function Count(s: string, c: char): nat {
    if s == "" then 0 else (if s[0] == c then 1 else 0) + Count(s[1..], c)
  }

  function DetectDelimiter(headerLine: string): char {
    var commas := Count(headerLine, ',');
    var semicolons := Count(headerLine, ';');
    var tabs := Count(headerLine, '\t');
    if tabs > commas && tabs > semicolons then '\t'
    else if semicolons > commas then ';'
    else ','
  }

  // ---------------------------------------------------------------- reading a document

  function StripBom(s: string): string {
    if s != "" && s[0] == '\U{FEFF}' then s[1..] else s
  }

  function StripCr(s: string): string {
    if s != "" && s[|s| - 1] == '\r' then s[..|s| - 1] else s
  }

  /** Splitting on `\r?\n`: every segment but the last loses one carriage return. */
  function LinesOf(segments: seq<string>): (lines: seq<string>)
    ensures |lines| == |segments|
  {
    if |segments| <= 1 then segments else [StripCr(segments[0])] + LinesOf(segments[1..])
  }

  predicate IsBlank(s: string) {
    Trim(s) == ""
  }

  function NonBlank(lines: seq<string>): seq<string> {
    if lines == [] then []
    else (if IsBlank(lines[0]) then [] else [lines[0]]) + NonBlank(lines[1..])
  }

  function SplitLines(lines: seq<string>, delimiter: char): (cells: seq<seq<string>>)
    ensures |cells| == |lines|
    ensures forall i :: 0 <= i < |lines| ==> cells[i] == SplitLine(lines[i], delimiter)
  {
    seq(|lines|, i requires 0 <= i < |lines| => SplitLine(lines[i], delimiter))
  }

  /** Data rows are numbered from 2 in the order of the lines kept. */
  function Numbered(rows: seq<seq<string>>): (r: seq<Row>)
    ensures |r| == |rows|
    ensures forall i :: 0 <= i < |rows| ==> r[i] == Row(i + 2, rows[i])
  {
    seq(|rows|, i requires 0 <= i < |rows| => Row(i + 2, rows[i]))
  }

  function TableOf(lines: seq<seq<string>>): Table
    requires lines != []
  {
    Table(lines[0], Numbered(lines[1..]))
  }

  function ParseCsv(content: string): Table {
    var text := Trim(StripBom(content));
    if text == "" then Table([], []) else
    var lines := NonBlank(LinesOf(Split(text, '\n')));
    if lines == [] then Table([], [])
    else TableOf(SplitLines(lines, DetectDelimiter(lines[0])))
  }

  // ---------------------------------------------------------------- the delimiter

  lemma {:induction false} CountIsMultiplicity(s: string, c: char)
    ensures Count(s, c) == multiset(s)[c]
  {
    if s != "" {
      CountIsMultiplicity(s[1..], c);
      assert s == [s[0]] + s[1..];
    }
  }

  predicate IsDelimiter(c: char) {
    c == ',' || c == ';' || c == '\t'
  }

  /** A header with these characters is read with delimiter `d`: a tab must outnumber both others, a
      semicolon the commas when no tab does. */
  predicate Selects(header: multiset<char>, d: char) {
    var tab := header['\t'] > header[','] && header['\t'] > header[';'];
    && (d == '\t' ==> tab)
    && (d == ';' ==> !tab && header[';'] > header[','])
    && (d == ',' ==> !tab && header[';'] <= header[','])
    && IsDelimiter(d)
  }

  lemma DelimiterIsSelected(header: string, d: char)
    ensures DetectDelimiter(header) == d <==> Selects(multiset(header), d)
  {
    CountIsMultiplicity(header, ',');
    CountIsMultiplicity(header, ';');
    CountIsMultiplicity(header, '\t');
  }

  // ---------------------------------------------------------------- writing

  function Escape(text: string): string {
    if text == "" then ""
    else (if text[0] == '"' then "\"\"" else [text[0]]) + Escape(text[1..])
  }

  function Quote(text: string): string {
    "\"" + Escape(text) + "\""
  }

  function Join(parts: seq<string>, separator: string): string
    requires parts != []
  {
    if |parts| == 1 then parts[0] else parts[0] + separator + Join(parts[1..], separator)
  }

  function Quoted(cells: seq<string>): (quoted: seq<string>)
    ensures |quoted| == |cells|
  {
    if cells == [] then [] else [Quote(cells[0])] + Quoted(cells[1..])
  }

  function PrintLine(cells: seq<string>, delimiter: char): string
    requires cells != []
  {
    Join(Quoted(cells), [delimiter])
  }

  predicate NonEmptyLines(lines: seq<seq<string>>) {
    forall i :: 0 <= i < |lines| ==> lines[i] != []
  }

  function PrintLines(lines: seq<seq<string>>, delimiter: char): (printed: seq<string>)
    requires NonEmptyLines(lines)
    ensures |printed| == |lines|
    ensures forall i :: 0 <= i < |lines| ==> printed[i] == PrintLine(lines[i], delimiter)
  {
    seq(|lines|, i requires 0 <= i < |lines| => PrintLine(lines[i], delimiter))
  }

  /** A whole document: every cell quoted, lines ended by LF or, with `cr`, by CR LF. */
  function PrintDocument(lines: seq<seq<string>>, delimiter: char, cr: bool): string
    requires lines != [] && NonEmptyLines(lines)
  {
    Join(PrintLines(lines, delimiter), Eol(cr))
  }

  function Eol(cr: bool): string {
    if cr then "\r\n" else "\n"
  }

  function TrimAll(cells: seq<string>): (trimmed: seq<string>)
    ensures |trimmed| == |cells|
    ensures forall i :: 0 <= i < |cells| ==> trimmed[i] == Trim(cells[i])
  {
    seq(|cells|, i requires 0 <= i < |cells| => Trim(cells[i]))
  }

  // ---------------------------------------------------------------- lines

  /** Inside quotes an escaped text is read back whole, whatever it contains. */
  lemma {:induction false} ScanQuoted(text: string, rest: string, delimiter: char, cell: string)
    requires rest == "" || rest[0] != '"'
    ensures Scan(Escape(text) + "\"" + rest, delimiter, true, cell) == Scan(rest, delimiter, false, cell + text)
    decreases |text|
  {
    var line := Escape(text) + "\"" + rest;
    if text == "" {
      assert line == "\"" + rest;
      assert line[1..] == rest;
      assert cell + text == cell;
    } else {
      var head := if text[0] == '"' then "\"\"" else [text[0]];
      assert line == head + (Escape(text[1..]) + "\"" + rest);
      assert line[|head|..] == Escape(text[1..]) + "\"" + rest;
      ScanQuoted(text[1..], rest, delimiter, cell + [text[0]]);
      assert cell + [text[0]] + text[1..] == cell + text;
    }
  }

  lemma ScanQuote(text: string, rest: string, delimiter: char, cell: string)
    requires rest == "" || rest[0] != '"'
    ensures Scan(Quote(text) + rest, delimiter, false, cell) == Scan(rest, delimiter, false, cell + text)
  {
    var line := Quote(text) + rest;
    assert line[1..] == Escape(text) + "\"" + rest;
    ScanQuoted(text, rest, delimiter, cell);
  }

  /** A printed line of two or more cells is its first cell, a delimiter and the rest. */
  lemma PrintedHead(cells: seq<string>, written: char)
    requires |cells| > 1
    ensures PrintLine(cells, written) == Quote(cells[0]) + ([written] + PrintLine(cells[1..], written))
  {
    hide Quote;
    assert Quoted(cells)[1..] == Quoted(cells[1..]);
  }

  lemma ScanOneCell(text: string, written: char, read: char, cell: string)
    requires read != '"'
    ensures Scan(PrintLine([text], written), read, false, cell) == [Trim(cell + text)]
  {
    ScanQuote(text, "", read, cell);
    assert Quote(text) + "" == PrintLine([text], written);
  }

  /** A printed line read with its own delimiter gives back the cells, trimmed. */
  lemma {:induction false} ScanPrinted(cells: seq<string>, delimiter: char, cell: string)
    requires cells != [] && delimiter != '"'
    ensures Scan(PrintLine(cells, delimiter), delimiter, false, cell) == [Trim(cell + cells[0])] + TrimAll(cells[1..])
    decreases |cells|
  {
    hide Trim, Quote, PrintLine;
    if |cells| == 1 {
      assert cells == [cells[0]];
      ScanOneCell(cells[0], delimiter, delimiter, cell);
    } else {
      var tail := PrintLine(cells[1..], delimiter);
      PrintedHead(cells, delimiter);
      ScanQuote(cells[0], [delimiter] + tail, delimiter, cell);
      assert ([delimiter] + tail)[1..] == tail;
      ScanPrinted(cells[1..], delimiter, "");
      assert "" + cells[1] == cells[1];
      assert [Trim(cells[1])] + TrimAll(cells[1..][1..]) == TrimAll(cells[1..]);
    }
  }

  /** Read with any other delimiter, it is one single cell. */
  lemma {:induction false} ScanOther(cells: seq<string>, written: char, read: char, cell: string)
    requires cells != [] && written != '"' && read != '"' && written != read
    ensures Scan(PrintLine(cells, written), read, false, cell) == [Trim(cell + Join(cells, [written]))]
    decreases |cells|
  {
    hide Trim, Quote, PrintLine;
    if |cells| == 1 {
      assert cells == [cells[0]];
      ScanOneCell(cells[0], written, read, cell);
    } else {
      var tail := PrintLine(cells[1..], written);
      PrintedHead(cells, written);
      ScanQuote(cells[0], [written] + tail, read, cell);
      assert ([written] + tail)[1..] == tail;
      ScanOther(cells[1..], written, read, cell + cells[0] + [written]);
      assert cell + cells[0] + [written] + Join(cells[1..], [written]) == cell + Join(cells, [written]);
    }
  }

  /** One printed line, read back. */
  lemma SplitPrintedLine(cells: seq<string>, written: char, read: char)
    requires cells != [] && written != '"' && read != '"'
    ensures SplitLine(PrintLine(cells, written), read)
         == if written == read then TrimAll(cells) else [Trim(Join(cells, [written]))]
  {
    hide Trim, Scan, PrintLine, Join;
    if written == read {
      ScanPrinted(cells, written, "");
      assert "" + cells[0] == cells[0];
      assert [Trim(cells[0])] + TrimAll(cells[1..]) == TrimAll(cells);
    } else {
      ScanOther(cells, written, read, "");
      assert "" + Join(cells, [written]) == Join(cells, [written]);
    }
  }

  /** A stretch of a cell, written as is or in quotes. */
  datatype Piece = Plain(text: string) | InQuotes(text: string)

  /** The pieces a reader can tell apart: plain text is not empty and holds neither quotes nor
      delimiters, and no two quoted pieces touch. */
  predicate Readable(cell: seq<Piece>, delimiter: char) {
    && (forall i :: 0 <= i < |cell| && cell[i].Plain? ==>
          cell[i].text != "" && '"' !in cell[i].text && delimiter !in cell[i].text)
    && (forall i :: 0 < i < |cell| ==> cell[i - 1].Plain? || cell[i].Plain?)
  }

  function PrintPiece(p: Piece): string {
    match p case Plain(t) => t case InQuotes(t) => Quote(t)
  }

  function PrintCell(cell: seq<Piece>): string {
    if cell == [] then "" else PrintPiece(cell[0]) + PrintCell(cell[1..])
  }

  function CellText(cell: seq<Piece>): string {
    if cell == [] then "" else cell[0].text + CellText(cell[1..])
  }

  /** A line of cells; `open_` is the text after a last quote that is never closed. */
  datatype Line = Line(cells: seq<seq<Piece>>, open_: Option<string>)

  predicate EndsQuoted(cell: seq<Piece>) {
    cell != [] && cell[|cell| - 1].InQuotes?
  }

  predicate ReadableLine(line: Line, delimiter: char) {
    && line.cells != []
    && (forall i :: 0 <= i < |line.cells| ==> Readable(line.cells[i], delimiter))
    && (line.open_.Some? ==> !EndsQuoted(line.cells[|line.cells| - 1]))
  }

  function PrintOpen(open_: Option<string>): string {
    if open_.Some? then "\"" + Escape(open_.value) else ""
  }

  function PrintCells(line: Line, delimiter: char): string
    requires line.cells != []
    decreases |line.cells|
  {
    if |line.cells| == 1 then PrintCell(line.cells[0]) + PrintOpen(line.open_)
    else PrintCell(line.cells[0]) + [delimiter] + PrintCells(Line(line.cells[1..], line.open_), delimiter)
  }

  /** The texts of the cells, an open quote running to the end of the last. */
  function Texts(line: Line): (texts: seq<string>)
    ensures |texts| == |line.cells|
    ensures forall i :: 0 <= i < |texts| ==>
        texts[i] == CellText(line.cells[i]) + if i == |texts| - 1 && line.open_.Some? then line.open_.value else ""
  {
    seq(|line.cells|, i requires 0 <= i < |line.cells| =>
      CellText(line.cells[i]) + if i == |line.cells| - 1 && line.open_.Some? then line.open_.value else "")
  }

  lemma {:induction false} ScanPlain(text: string, rest: string, delimiter: char, cell: string)
    requires '"' !in text && delimiter !in text
    ensures Scan(text + rest, delimiter, false, cell) == Scan(rest, delimiter, false, cell + text)
  {
    if text == "" {
      assert text + rest == rest;
      assert cell + text == cell;
    } else {
      assert (text + rest)[1..] == text[1..] + rest;
      ScanPlain(text[1..], rest, delimiter, cell + [text[0]]);
      assert cell + [text[0]] + text[1..] == cell + text;
    }
  }

  lemma ScanOpenStep(c: char, rest: string, delimiter: char, cell: string)
    ensures Scan((if c == '"' then "\"\"" else [c]) + rest, delimiter, true, cell)
         == Scan(rest, delimiter, true, cell + [c])
  {
    hide Trim;
    var line := (if c == '"' then "\"\"" else [c]) + rest;
    assert line[if c == '"' then 2 else 1..] == rest;
  }

  lemma {:induction false} ScanOpen(text: string, delimiter: char, cell: string)
    ensures Scan(Escape(text), delimiter, true, cell) == [Trim(cell + text)]
    decreases |text|
  {
    hide Trim;
    if text == "" {
      assert cell + text == cell;
    } else {
      hide Scan;
      ScanOpenStep(text[0], Escape(text[1..]), delimiter, cell);
      ScanOpen(text[1..], delimiter, cell + [text[0]]);
      assert cell + [text[0]] + text[1..] == cell + text;
    }
  }

  predicate StartsQuoted(s: string) {
    s != "" && s[0] == '"'
  }

  /** The pieces of a cell are read one after the other. */
  lemma {:induction false} ScanCell(cell: seq<Piece>, rest: string, delimiter: char, before: string)
    requires Readable(cell, delimiter) && (EndsQuoted(cell) ==> !StartsQuoted(rest))
    ensures Scan(PrintCell(cell) + rest, delimiter, false, before)
         == Scan(rest, delimiter, false, before + CellText(cell))
    decreases |cell|
  {
    hide Scan, Quote;
    if cell == [] {
      assert PrintCell(cell) + rest == rest && before + CellText(cell) == before;
    } else {
      var tail := PrintCell(cell[1..]) + rest;
      assert PrintCell(cell) + rest == PrintPiece(cell[0]) + tail;
      assert before + CellText(cell) == before + cell[0].text + CellText(cell[1..]);
      ScanCell(cell[1..], rest, delimiter, before + cell[0].text);
      match cell[0] {
        case Plain(t) => ScanPlain(t, tail, delimiter, before);
        case InQuotes(t) =>
          assert cell[1..] != [] ==> cell[1].Plain? && PrintCell(cell[1..])[0] == cell[1].text[0];
          ScanQuote(t, tail, delimiter, before);
      }
    }
  }

  lemma ScanLast(cell: seq<Piece>, open_: Option<string>, delimiter: char)
    requires Readable(cell, delimiter) && (open_.Some? ==> !EndsQuoted(cell))
    ensures Scan(PrintCell(cell) + PrintOpen(open_), delimiter, false, "")
         == [Trim(CellText(cell) + if open_.Some? then open_.value else "")]
  {
    hide Trim;
    ScanCell(cell, PrintOpen(open_), delimiter, "");
    assert "" + CellText(cell) == CellText(cell) == CellText(cell) + "";
    if open_.Some? {
      assert PrintOpen(open_)[1..] == Escape(open_.value);
      ScanOpen(open_.value, delimiter, CellText(cell));
    }
  }

  /** A line may mix plain and quoted stretches freely, within a cell too, and leave a last quote open:
      each cell is read back trimmed, in its place. */
  lemma {:induction false} SplitMixedLine(line: Line, delimiter: char)
    requires delimiter != '"' && ReadableLine(line, delimiter)
    ensures SplitLine(PrintCells(line, delimiter), delimiter) == TrimAll(Texts(line))
    decreases |line.cells|
  {
    hide Trim, PrintCell, PrintOpen, CellText, Readable;
    var cell := line.cells[0];
    if |line.cells| == 1 {
      ScanLast(cell, line.open_, delimiter);
      assert TrimAll(Texts(line)) == [Trim(Texts(line)[0])];
    } else {
      var others := Line(line.cells[1..], line.open_);
      var tail := PrintCells(others, delimiter);
      assert PrintCells(line, delimiter) == PrintCell(cell) + ([delimiter] + tail);
      ScanCell(cell, [delimiter] + tail, delimiter, "");
      assert ([delimiter] + tail)[1..] == tail;
      assert "" + CellText(cell) == CellText(cell) == CellText(cell) + "" == Texts(line)[0];
      SplitMixedLine(others, delimiter);
      assert Texts(others) == Texts(line)[1..];
      assert [Trim(Texts(line)[0])] + TrimAll(Texts(others)) == TrimAll(Texts(line));
    }
  }

  /** What follows an opening quote: a text and, if the quote is closed, the rest of the line. */
  lemma {:induction false} AfterQuote(line: string) returns (text: string, closed: bool, rest: string)
    ensures if closed then line == Escape(text) + "\"" + rest && !StartsQuoted(rest) else line == Escape(text)
    ensures closed ==> |rest| < |line|
    decreases |line|
  {
    if line == "" {
      text, closed, rest := "", false, "";
    } else if line[0] != '"' {
      text, closed, rest := AfterQuote(line[1..]);
      assert line == [line[0]] + line[1..];
      text := [line[0]] + text;
      assert text[1..] + "" == text[1..];
    } else if |line| > 1 && line[1] == '"' {
      text, closed, rest := AfterQuote(line[2..]);
      assert line == "\"\"" + line[2..];
      text := "\"" + text;
      assert text[1..] + "" == text[1..];
    } else {
      text, closed, rest := "", true, line[1..];
      assert line == "" + "\"" + rest;
    }
  }

  /** The line with `piece` put in front of its first cell. */
  function Before(piece: Piece, line: Line): Line
    requires line.cells != []
  {
    Line([[piece] + line.cells[0]] + line.cells[1..], line.open_)
  }

  lemma PrintBefore(piece: Piece, line: Line, delimiter: char)
    requires line.cells != []
    ensures PrintCells(Before(piece, line), delimiter) == PrintPiece(piece) + PrintCells(line, delimiter)
  {
    var cell := line.cells[0];
    assert ([piece] + cell)[1..] == cell;
    assert Before(piece, line).cells[1..] == line.cells[1..];
  }

  lemma BeforeIsReadable(piece: Piece, line: Line, delimiter: char)
    requires ReadableLine(line, delimiter)
    requires piece.Plain? ==> piece.text != "" && '"' !in piece.text && delimiter !in piece.text
    requires piece.InQuotes? ==> !StartsQuoted(PrintCells(line, delimiter))
    ensures ReadableLine(Before(piece, line), delimiter)
  {
    var cell := line.cells[0];
    var line' := Before(piece, line);
    assert Readable([piece] + cell, delimiter);
    forall i | 0 <= i < |line'.cells| ensures Readable(line'.cells[i], delimiter) {
      assert i > 0 ==> line'.cells[i] == line.cells[i];
    }
  }

  lemma NoCell(open_: Option<string>, delimiter: char)
    ensures ReadableLine(Line([[]], open_), delimiter)
    ensures PrintCells(Line([[]], open_), delimiter) == PrintOpen(open_)
  {
  }

  lemma PrintEmptyFirst(line: Line, delimiter: char)
    requires line.cells != []
    ensures PrintCells(Line([[]] + line.cells, line.open_), delimiter) == [delimiter] + PrintCells(line, delimiter)
  {
    hide PrintOpen;
    var line' := Line([[]] + line.cells, line.open_);
    assert Line(line'.cells[1..], line'.open_) == line;
    assert PrintCell(line'.cells[0]) == "";
    hide PrintCell;
  }

  lemma EmptyCellFirst(line: Line, delimiter: char)
    requires ReadableLine(line, delimiter)
    ensures ReadableLine(Line([[]] + line.cells, line.open_), delimiter)
  {
    assert Readable([], delimiter);
    hide Readable;
    var cells := [[]] + line.cells;
    assert cells[|cells| - 1] == line.cells[|line.cells| - 1];
  }

  lemma {:induction false} Decompose(s: string, delimiter: char) returns (line: Line)
    requires delimiter != '"'
    ensures line.cells != [] && ReadableLine(line, delimiter) && PrintCells(line, delimiter) == s
    decreases |s|
  {
    hide ReadableLine, PrintCells, Escape, Before;
    if s == "" {
      line := Line([[]], None);
      NoCell(None, delimiter);
    } else if s[0] == delimiter {
      var others := Decompose(s[1..], delimiter);
      line := Line([[]] + others.cells, others.open_);
      EmptyCellFirst(others, delimiter);
      PrintEmptyFirst(others, delimiter);
      assert s == [s[0]] + s[1..];
    } else if s[0] == '"' {
      var text, closed, rest := AfterQuote(s[1..]);
      assert s == "\"" + s[1..];
      if closed {
        var others := Decompose(rest, delimiter);
        line := Before(InQuotes(text), others);
        BeforeIsReadable(InQuotes(text), others, delimiter);
        PrintBefore(InQuotes(text), others, delimiter);
        assert s == Quote(text) + rest;
      } else {
        line := Line([[]], Some(text));
        NoCell(Some(text), delimiter);
      }
    } else {
      var others := Decompose(s[1..], delimiter);
      line := Before(Plain([s[0]]), others);
      BeforeIsReadable(Plain([s[0]]), others, delimiter);
      PrintBefore(Plain([s[0]]), others, delimiter);
      assert s == [s[0]] + s[1..];
    }
  }

  /** Every line whatsoever is such a line, so this is all the reader does. */
  lemma EveryLine(s: string, delimiter: char) returns (line: Line)
    requires delimiter != '"'
    ensures ReadableLine(line, delimiter) && PrintCells(line, delimiter) == s
    ensures SplitLine(s, delimiter) == TrimAll(Texts(line))
  {
    line := Decompose(s, delimiter);
    SplitMixedLine(line, delimiter);
  }

  // ---------------------------------------------------------------- documents

  /** A line that opens and closes with a quote, as every printed line does. */
  predicate Framed(s: string) {
    |s| >= 2 && s[0] == '"' && s[|s| - 1] == '"'
  }

  lemma {:induction false} PrintedIsFramed(cells: seq<string>, delimiter: char)
    requires cells != []
    ensures Framed(PrintLine(cells, delimiter))
    decreases |cells|
  {
    if |cells| > 1 {
      PrintedHead(cells, delimiter);
      hide PrintLine;
      PrintedIsFramed(cells[1..], delimiter);
    } else {
      assert PrintLine(cells, delimiter) == Quote(cells[0]);
    }
  }

  lemma FramedIsTrimmed(s: string)
    requires Framed(s)
    ensures Trimmed(s) && !IsBlank(s) && StripCr(s) == s && StripCr(s + "\r") == s && StripBom(s) == s
  {
    TrimIsTrimmed(s);
    assert (s + "\r")[..|s|] == s;
  }

  lemma {:induction false} JoinIsFramed(parts: seq<string>, separator: string)
    requires parts != [] && forall i :: 0 <= i < |parts| ==> Framed(parts[i])
    ensures Framed(Join(parts, separator))
    decreases |parts|
  {
    if |parts| > 1 {
      JoinIsFramed(parts[1..], separator);
    }
  }

  lemma {:induction false} FramedStay(parts: seq<string>)
    requires forall i :: 0 <= i < |parts| ==> Framed(parts[i])
    ensures NonBlank(parts) == parts
  {
    hide IsBlank;
    if parts != [] {
      FramedIsTrimmed(parts[0]);
      FramedStay(parts[1..]);
    }
  }

  /** Lines free of line feeds are recovered exactly, with either line ending. */
  lemma {:induction false} LinesOfJoin(parts: seq<string>, cr: bool)
    requires parts != []
    requires forall i :: 0 <= i < |parts| ==> Framed(parts[i]) && '\n' !in parts[i]
    ensures LinesOf(Split(Join(parts, Eol(cr)), '\n')) == parts
    decreases |parts|
  {
    if |parts| == 1 {
      SplitWithout(parts[0], '\n');
    } else {
      hide Split, StripCr, Framed;
      var rest := Join(parts[1..], Eol(cr));
      var first := parts[0] + if cr then "\r" else "";
      assert Join(parts, Eol(cr)) == first + ['\n'] + rest;
      FramedIsTrimmed(parts[0]);
      SplitWithout(first, '\n');
      SplitAt(first, '\n', rest);
      LinesOfJoin(parts[1..], cr);
      var segments := Split(Join(parts, Eol(cr)), '\n');
      assert segments[1..] == Split(rest, '\n');
      assert LinesOf(segments) == [StripCr(first)] + parts[1..];
      if !cr { assert first == parts[0]; }
    }
  }

  /** How many segments hold something other than white space. */
  function Inked(segments: seq<string>): nat {
    if segments == [] then 0 else (if IsBlank(segments[0]) then 0 else 1) + Inked(segments[1..])
  }

  lemma {:induction false} InkedAppend(a: seq<string>, b: seq<string>)
    ensures Inked(a + b) == Inked(a) + Inked(b)
  {
    if a == [] {
      assert a + b == b;
    } else {
      assert (a + b)[1..] == a[1..] + b;
      InkedAppend(a[1..], b);
    }
  }

  lemma BlankMeansSpaces(s: string)
    ensures IsBlank(s) <==> forall i :: 0 <= i < |s| ==> IsSpace(s[i])
  {
    TrimStartBlank(s);
    TrimStartHead(s);
    TrimEndKeepsHead(TrimStart(s));
    if TrimStart(s) != "" {
      TrimEndNonBlank(TrimStart(s));
    }
  }

  lemma {:induction false} TrimStartBlank(s: string)
    ensures TrimStart(s) == "" <==> forall i :: 0 <= i < |s| ==> IsSpace(s[i])
  {
    if s != "" && IsSpace(s[0]) {
      TrimStartBlank(s[1..]);
      assert forall i :: 1 <= i < |s| ==> s[i] == s[1..][i - 1];
    }
  }

  lemma {:induction false} TrimEndNonBlank(s: string)
    requires s != "" && !IsSpace(s[0])
    ensures TrimEnd(s) != ""
    decreases |s|
  {
    if IsSpace(s[|s| - 1]) {
      TrimEndNonBlank(s[..|s| - 1]);
    }
  }

  lemma BlankStripCr(s: string)
    ensures IsBlank(StripCr(s)) == IsBlank(s)
  {
    BlankMeansSpaces(s);
    BlankMeansSpaces(StripCr(s));
  }

  lemma {:induction false} NonBlankCount(segments: seq<string>)
    ensures |NonBlank(LinesOf(segments))| == Inked(segments)
  {
    if |segments| == 1 {
      assert NonBlank(segments[1..]) == [] && Inked(segments[1..]) == 0;
    } else if |segments| > 1 {
      BlankStripCr(segments[0]);
      NonBlankCount(segments[1..]);
      assert LinesOf(segments)[1..] == LinesOf(segments[1..]);
    }
  }

  /** Anything visible leaves at least one visible segment. */
  lemma {:induction false} InkSurvives(s: string, k: nat)
    requires k < |s| && !IsSpace(s[k])
    ensures Inked(Split(s, '\n')) >= 1
  {
    var rest := Split(s[1..], '\n');
    if s[0] == '\n' {
      InkSurvives(s[1..], k - 1);
      InkedAppend([""], rest);
    } else {
      var head := [s[0]] + rest[0];
      assert Split(s, '\n') == [head] + rest[1..];
      if k == 0 {
        BlankMeansSpaces(head);
      } else {
        InkSurvives(s[1..], k - 1);
        BlankMeansSpaces(rest[0]);
        BlankMeansSpaces(head);
        assert rest == [rest[0]] + rest[1..];
        assert forall i :: 0 <= i < |rest[0]| ==> head[i + 1] == rest[0][i];
      }
    }
  }

  /** A framed line holding a line feed falls apart into two or more visible lines. */
  lemma BrokenLine(line: string, cr: bool)
    requires Framed(line)
    ensures var end := line + if cr then "\r" else "";
      && Inked(Split(end, '\n')) >= 1
      && ('\n' in line ==> Inked(Split(end, '\n')) >= 2)
  {
    var end := line + if cr then "\r" else "";
    InkSurvives(end, 0);
    if '\n' in line {
      var k :| 0 <= k < |line| && line[k] == '\n';
      var before, after := end[..k], end[k + 1..];
      assert end == before + ['\n'] + after;
      assert after[|line| - k - 2] == '"';
      SplitAt(before, '\n', after);
      InkSurvives(before, 0);
      InkSurvives(after, |line| - k - 2);
      InkedAppend(Split(before, '\n'), Split(after, '\n'));
    }
  }

  /** A document has at least one visible line for each of its lines, and more as soon as one of
      them holds a line feed. */
  lemma {:induction false} InkedDocument(parts: seq<string>, cr: bool)
    requires parts != [] && forall i :: 0 <= i < |parts| ==> Framed(parts[i])
    ensures Inked(Split(Join(parts, Eol(cr)), '\n')) >= |parts|
    ensures (exists i :: 0 <= i < |parts| && '\n' in parts[i]) ==>
              Inked(Split(Join(parts, Eol(cr)), '\n')) > |parts|
    decreases |parts|
  {
    hide Inked, Split;
    if |parts| == 1 {
      BrokenLine(parts[0], false);
      assert parts[0] + "" == parts[0];
    } else {
      BrokenLine(parts[0], cr);
      var first := parts[0] + if cr then "\r" else "";
      var rest := Join(parts[1..], Eol(cr));
      assert Join(parts, Eol(cr)) == first + ['\n'] + rest;
      SplitAt(first, '\n', rest);
      InkedAppend(Split(first, '\n'), Split(rest, '\n'));
      InkedDocument(parts[1..], cr);
      if i :| 0 <= i < |parts| && '\n' in parts[i] {
        assert i == 0 || '\n' in parts[1..][i - 1];
      }
    }
  }

  lemma {:induction false} EscapeKeeps(text: string, c: char)
    requires c != '"'
    ensures c in Escape(text) <==> c in text
  {
    if text != "" {
      EscapeKeeps(text[1..], c);
      assert text == [text[0]] + text[1..];
    }
  }

  /** The line feeds of a printed line are those of its cells. */
  lemma {:induction false} PrintedFeeds(cells: seq<string>, delimiter: char)
    requires cells != [] && delimiter != '\n'
    ensures '\n' in PrintLine(cells, delimiter) <==> exists j :: 0 <= j < |cells| && '\n' in cells[j]
    decreases |cells|
  {
    EscapeKeeps(cells[0], '\n');
    if |cells| > 1 {
      var tail := PrintLine(cells[1..], delimiter);
      assert Quoted(cells)[1..] == Quoted(cells[1..]);
      assert PrintLine(cells, delimiter) == Quote(cells[0]) + [delimiter] + tail;
      PrintedFeeds(cells[1..], delimiter);
      if j :| 0 <= j < |cells| && '\n' in cells[j] {
        assert j == 0 || '\n' in cells[1..][j - 1];
      }
      if j :| 0 <= j < |cells[1..]| && '\n' in cells[1..][j] {
        assert '\n' in cells[j + 1];
      }
    }
  }

  predicate FeedFree(lines: seq<seq<string>>) {
    forall i, j :: 0 <= i < |lines| && 0 <= j < |lines[i]| ==> '\n' !in lines[i][j]
  }

  predicate AllTrimmed(lines: seq<seq<string>>) {
    forall i, j :: 0 <= i < |lines| && 0 <= j < |lines[i]| ==> Trimmed(lines[i][j])
  }

  predicate SingleColumn(lines: seq<seq<string>>) {
    forall i :: 0 <= i < |lines| ==> |lines[i]| == 1
  }

  lemma PrintedDocumentText(lines: seq<seq<string>>, delimiter: char, cr: bool)
    requires lines != [] && NonEmptyLines(lines)
    ensures var doc := PrintDocument(lines, delimiter, cr);
      doc != "" && Trim(StripBom(doc)) == doc
    ensures forall i :: 0 <= i < |lines| ==> Framed(PrintLines(lines, delimiter)[i])
  {
    var parts := PrintLines(lines, delimiter);
    forall i | 0 <= i < |lines| ensures Framed(parts[i]) {
      PrintedIsFramed(lines[i], delimiter);
    }
    JoinIsFramed(parts, Eol(cr));
    FramedIsTrimmed(PrintDocument(lines, delimiter, cr));
    TrimIsTrimmed(PrintDocument(lines, delimiter, cr));
  }

  /** What the parser makes of a document without line feeds inside cells. */
  lemma ParsePrinted(lines: seq<seq<string>>, delimiter: char, cr: bool, read: char)
    requires lines != [] && NonEmptyLines(lines) && IsDelimiter(delimiter) && FeedFree(lines)
    requires Selects(multiset(PrintLine(lines[0], delimiter)), read)
    ensures ParseCsv(PrintDocument(lines, delimiter, cr)) == TableOf(SplitLines(PrintLines(lines, delimiter), read))
  {
    DelimiterIsSelected(PrintLine(lines[0], delimiter), read);
    var parts := PrintLines(lines, delimiter);
    PrintedDocumentText(lines, delimiter, cr);
    forall i | 0 <= i < |parts| ensures '\n' !in parts[i] {
      PrintedFeeds(lines[i], delimiter);
    }
    LinesOfJoin(parts, cr);
    FramedStay(parts);
  }

  /** A line feed inside a cell always adds lines, so the table cannot have the right height. */
  lemma FeedsAddRows(lines: seq<seq<string>>, delimiter: char, cr: bool)
    requires lines != [] && NonEmptyLines(lines) && IsDelimiter(delimiter) && !FeedFree(lines)
    ensures |ParseCsv(PrintDocument(lines, delimiter, cr)).rows| + 1 > |lines|
  {
    hide Split, Trim, Framed, PrintLine, Inked;
    var parts := PrintLines(lines, delimiter);
    PrintedDocumentText(lines, delimiter, cr);
    var i, j :| 0 <= i < |lines| && 0 <= j < |lines[i]| && '\n' in lines[i][j];
    PrintedFeeds(lines[i], delimiter);
    assert '\n' in parts[i];
    InkedDocument(parts, cr);
    NonBlankCount(Split(PrintDocument(lines, delimiter, cr), '\n'));
  }

  lemma TablesAgree(a: seq<seq<string>>, b: seq<seq<string>>)
    requires a != [] && b != []
    ensures TableOf(a) == TableOf(b) <==> a == b
  {
    if TableOf(a) == TableOf(b) {
      assert |Numbered(a[1..])| == |Numbered(b[1..])|;
      forall i | 0 <= i < |a| ensures a[i] == b[i] {
        if i > 0 {
          assert Numbered(a[1..])[i - 1] == Numbered(b[1..])[i - 1];
        }
      }
    }
  }

  /** The document round trip, and exactly when it holds: parsing a printed table returns that
      table, rows numbered from 2, if and only if no cell holds a line feed, every cell is
      trimmed, and the header's raw counts select the delimiter written (which cannot matter
      when every line has a single cell). */
  lemma RoundTrip(lines: seq<seq<string>>, delimiter: char, cr: bool)
    requires lines != [] && NonEmptyLines(lines) && IsDelimiter(delimiter)
    ensures ParseCsv(PrintDocument(lines, delimiter, cr)) == TableOf(lines)
      <==> (&& FeedFree(lines) && AllTrimmed(lines)
            && (Selects(multiset(PrintLine(lines[0], delimiter)), delimiter) || SingleColumn(lines)))
  {
    if !FeedFree(lines) {
      FeedsAddRows(lines, delimiter, cr);
    } else {
      var detected := DetectDelimiter(PrintLine(lines[0], delimiter));
      DelimiterIsSelected(PrintLine(lines[0], delimiter), detected);
      DelimiterIsSelected(PrintLine(lines[0], delimiter), delimiter);
      ParsePrinted(lines, delimiter, cr, detected);
      var read := SplitLines(PrintLines(lines, delimiter), detected);
      TablesAgree(read, lines);
      forall i | 0 <= i < |lines|
        ensures read[i] == lines[i] <==>
          ((detected == delimiter || |lines[i]| == 1)
           && forall j :: 0 <= j < |lines[i]| ==> Trimmed(lines[i][j]))
      {
        LineComesBack(lines[i], delimiter, detected);
      }
      if read == lines {
        assert AllTrimmed(lines);
      }
    }
  }

  /** The table holds these lines: the first is its header, the others its rows, numbered from 2. */
  predicate HoldsLines(t: Table, lines: seq<seq<string>>)
    requires lines != []
  {
    && t.headers == lines[0] && |t.rows| == |lines| - 1
    && forall i :: 1 <= i < |lines| ==> t.rows[i - 1] == Row(i + 1, lines[i])
  }

  lemma HoldsTable(t: Table, lines: seq<seq<string>>)
    requires lines != []
    ensures HoldsLines(t, lines) <==> t == TableOf(lines)
  {
    if HoldsLines(t, lines) {
      assert t.rows == Numbered(lines[1..]);
    }
  }

  lemma QuoteKeeps(text: string, c: char)
    requires c != '"' && c !in text
    ensures multiset(Quote(text))[c] == 0
  {
    EscapeKeeps(text, c);
    assert c !in Quote(text);
  }

  lemma {:induction false} PrintedCount(cells: seq<string>, delimiter: char, c: char)
    requires cells != [] && c != '"' && forall i :: 0 <= i < |cells| ==> c !in cells[i]
    ensures multiset(PrintLine(cells, delimiter))[c] == if c == delimiter then |cells| - 1 else 0
    decreases |cells|
  {
    hide Quote;
    QuoteKeeps(cells[0], c);
    if |cells| > 1 {
      PrintedHead(cells, delimiter);
      hide PrintLine;
      PrintedCount(cells[1..], delimiter, c);
      assert multiset(PrintLine(cells, delimiter))
          == multiset(Quote(cells[0])) + multiset{delimiter} + multiset(PrintLine(cells[1..], delimiter));
    } else {
      assert PrintLine(cells, delimiter) == Quote(cells[0]);
    }
  }

  predicate DelimiterFree(cells: seq<string>) {
    forall i :: 0 <= i < |cells| ==> ',' !in cells[i] && ';' !in cells[i] && '\t' !in cells[i]
  }

  /** The usual file: a header of two or more cells free of delimiters, written with a comma, a
      semicolon or a tab. It comes back, header and rows, if and only if its cells are trimmed and
      free of line feeds. */
  lemma UsualRoundTrip(lines: seq<seq<string>>, delimiter: char, cr: bool)
    requires lines != [] && NonEmptyLines(lines) && IsDelimiter(delimiter)
    requires |lines[0]| >= 2 && DelimiterFree(lines[0])
    ensures HoldsLines(ParseCsv(PrintDocument(lines, delimiter, cr)), lines) <==> FeedFree(lines) && AllTrimmed(lines)
  {
    PrintedCount(lines[0], delimiter, ',');
    PrintedCount(lines[0], delimiter, ';');
    PrintedCount(lines[0], delimiter, '\t');
    RoundTrip(lines, delimiter, cr);
    HoldsTable(ParseCsv(PrintDocument(lines, delimiter, cr)), lines);
    hide ParseCsv, PrintDocument, PrintLine, TableOf, HoldsLines, FeedFree, AllTrimmed, NonEmptyLines;
  }

  /** White space around the file, a byte order mark included, makes no difference. */
  lemma SurroundingSpace(a: string, content: string, b: string)
    requires AllSpace(a) && AllSpace(b)
    ensures ParseCsv(a + content + b) == ParseCsv(content)
  {
    var whole := a + content + b;
    forall s: string ensures Trim(StripBom(s)) == Trim(s) {
      if StripBom(s) != s {
        TrimPadded([s[0]], s[1..], "");
        assert [s[0]] + s[1..] + "" == s;
      }
    }
    TrimPadded(a, content, b);
  }

  /** The parser finds no header exactly in a file of white space alone, and then no row either. */
  lemma BlankFile(content: string)
    ensures ParseCsv(content).headers == [] <==> AllSpace(content)
    ensures AllSpace(content) ==> ParseCsv(content).rows == []
  {
    var stripped := StripBom(content);
    var text := Trim(stripped);
    BlankMeansSpaces(stripped);
    assert AllSpace(content) <==> AllSpace(stripped) by {
      assert stripped != content ==> content == [content[0]] + stripped;
    }
    if text != "" {
      TrimIsTrimmed(stripped);
      InkSurvives(text, 0);
      NonBlankCount(Split(text, '\n'));
    }
  }

  lemma LineComesBack(cells: seq<string>, written: char, read: char)
    requires cells != [] && IsDelimiter(written) && IsDelimiter(read)
    ensures SplitLine(PrintLine(cells, written), read) == cells <==>
      ((read == written || |cells| == 1) && forall j :: 0 <= j < |cells| ==> Trimmed(cells[j]))
  {
    SplitPrintedLine(cells, written, read);
    forall j | 0 <= j < |cells| ensures Trimmed(cells[j]) <==> Trim(cells[j]) == cells[j] {
      TrimIsTrimmed(cells[j]);
    }
    if |cells| == 1 {
      assert Join(cells, [written]) == cells[0];
    }
    if SplitLine(PrintLine(cells, written), read) == cells && written == read {
      assert forall j :: 0 <= j < |cells| ==> TrimAll(cells)[j] == cells[j];
    }
  }

  /** A cell with a line feed, which RFC 4180 allows inside quotes, does not come back. */
  lemma LineFeedBreaksRoundTrip()
    ensures ParseCsv(PrintDocument([["name"], ["a\nb"]], ',', false)) != TableOf([["name"], ["a\nb"]])
  {
    var lines := [["name"], ["a\nb"]];
    assert lines[1][0][1] == '\n';
    assert !FeedFree(lines);
    FeedsAddRows(lines, ',', false);
  }
}
