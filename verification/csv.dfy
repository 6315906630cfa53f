/**
  Comma-separated text as the exports write it, following section 2 of
  RFC 4180: fields are separated by commas and records by line breaks
  (rules 1 and 4), a field may be enclosed in double quotes (rule 5), and a
  double quote inside an enclosed field is written twice (rules 6 and 7).
  A field is either written raw or enclosed; a decoder for one record is
  given so that what the writers produce can be shown to read back.
 */
module Csv {
  import opened Wrappers
  import opened Text

  const Quote: char := '"'

  /** `s.replace(/"/g, '""')`: every double quote doubled, every other character kept. */
  function EscapeQuotes(s: string): (r: string)
    ensures |r| >= |s|
    decreases |s|
  {
    if |s| == 0 then "" else EscapeChar(s[0]) + EscapeQuotes(s[1..])
  }

  /** One character as written inside an enclosed field. */
  function EscapeChar(c: char): string {
    if c == Quote then [Quote, Quote] else [c]
  }

  /** A character other than the quote occurs in the escaped text only where it occurred before. */
  lemma {:induction false} EscapeAvoids(s: string, c: char)
    requires c != Quote && c !in s
    ensures c !in EscapeQuotes(s)
    decreases |s|
  {
    if |s| > 0 {
      EscapeAvoids(s[1..], c);
    }
  }

  /** The field enclosed in double quotes, inner quotes doubled. */
  function QuoteField(s: string): (r: string)
    ensures |r| >= |s| + 2 && r[0] == Quote && r[|r| - 1] == Quote
  {
    [Quote] + EscapeQuotes(s) + [Quote]
  }

  /** The text read from an enclosed field and the characters used, closing quote included. */
  datatype Scan = Scan(text: string, used: nat)

  /**
    Reads the body of an enclosed field, starting after its opening quote: a
    doubled quote stands for one quote and a single quote closes the field.
    `None` when the field is never closed.
   */
  function ScanQuoted(t: string): (r: Option<Scan>)
    ensures r.Some? ==> 1 <= r.value.used <= |t|
    decreases |t|
  {
    if |t| == 0 then None
    else if t[0] == Quote then
      if |t| >= 2 && t[1] == Quote then
        match ScanQuoted(t[2..])
        case None => None
        case Some(sc) => Some(Scan([Quote] + sc.text, sc.used + 2))
      else Some(Scan("", 1))
    else
      match ScanQuoted(t[1..])
      case None => None
      case Some(sc) => Some(Scan([t[0]] + sc.text, sc.used + 1))
  }

  /** Reading a doubled quote yields one quote and goes on after both. */
  lemma ScanDoubledQuote(tail: string)
    ensures ScanQuoted([Quote, Quote] + tail) ==
      match ScanQuoted(tail) case None => None case Some(sc) => Some(Scan([Quote] + sc.text, sc.used + 2))
  {
    assert ([Quote, Quote] + tail)[2..] == tail;
  }

  /** Reading any other character keeps it and goes on after it. */
  lemma ScanOtherChar(c: char, tail: string)
    requires c != Quote
    ensures ScanQuoted([c] + tail) ==
      match ScanQuoted(tail) case None => None case Some(sc) => Some(Scan([c] + sc.text, sc.used + 1))
  {
    assert ([c] + tail)[1..] == tail;
  }

  /** An escaped text followed by a closing quote reads back as the text, when no quote follows. */
  lemma {:induction false} ScanEscaped(x: string, rest: string)
    requires |rest| == 0 || rest[0] != Quote
    ensures ScanQuoted(EscapeQuotes(x) + [Quote] + rest) == Some(Scan(x, |EscapeQuotes(x)| + 1))
    decreases |x|
  {
    if |x| == 0 {
      ScanClosingQuote(rest);
    } else {
      ScanEscaped(x[1..], rest);
      ScanEscapedStep(x, rest);
    }
  }

  /** A lone quote closes the field when no quote follows it. */
  lemma ScanClosingQuote(rest: string)
    requires |rest| == 0 || rest[0] != Quote
    ensures ScanQuoted(EscapeQuotes("") + [Quote] + rest) == Some(Scan("", |EscapeQuotes("")| + 1))
  {
    var t := [Quote] + rest;
    assert EscapeQuotes("") + [Quote] + rest == t;
    assert |t| >= 2 ==> t[1] == rest[0];
  }

  /** The inductive step of `ScanEscaped`: one more character in front. */
  lemma ScanEscapedStep(x: string, rest: string)
    requires |x| > 0
    requires ScanQuoted(EscapeQuotes(x[1..]) + [Quote] + rest) == Some(Scan(x[1..], |EscapeQuotes(x[1..])| + 1))
    ensures ScanQuoted(EscapeQuotes(x) + [Quote] + rest) == Some(Scan(x, |EscapeQuotes(x)| + 1))
  {
    var tail := EscapeQuotes(x[1..]) + [Quote] + rest;
    assert EscapeQuotes(x) == EscapeChar(x[0]) + EscapeQuotes(x[1..]);
    ConcatAssoc(EscapeChar(x[0]), EscapeQuotes(x[1..]), [Quote], rest);
    ScanEscapedChar(x[0], x[1..], |EscapeQuotes(x[1..])| + 1, tail);
    assert [x[0]] + x[1..] == x;
  }

  /** Reading one escaped character in front of a scanned field adds it to the text read. */
  lemma ScanEscapedChar(c: char, text: string, used: nat, tail: string)
    requires ScanQuoted(tail) == Some(Scan(text, used))
    ensures ScanQuoted(EscapeChar(c) + tail) == Some(Scan([c] + text, used + |EscapeChar(c)|))
  {
    if c == Quote {
      ScanDoubledQuote(tail);
    } else {
      ScanOtherChar(c, tail);
    }
  }

  /** Concatenation regrouped: the first part, then the other three together. */
  lemma ConcatAssoc(a: string, b: string, c: string, d: string)
    ensures a + b + c + d == a + (b + c + d)
  {
  }

  /** A field as written: raw, or enclosed in double quotes. */
  datatype Cell = Raw(text: string) | Quoted(text: string)

  function Encode(c: Cell): string {
    match c
    case Raw(s) => s
    case Quoted(s) => QuoteField(s)
  }

  /** Text that can stand as a raw field: no comma, no double quote, no line feed. */
  predicate Plain(s: string) {
    ',' !in s && Quote !in s && '\n' !in s
  }

  /** A field the decoder reads back: raw fields must be plain, enclosed ones may hold anything. */
  predicate Decodable(c: Cell) {
    c.Raw? ==> Plain(c.text)
  }

  function EncodeAll(cells: seq<Cell>): (parts: seq<string>)
    ensures |parts| == |cells|
    ensures forall i :: 0 <= i < |cells| ==> parts[i] == Encode(cells[i])
  {
    seq(|cells|, i requires 0 <= i < |cells| => Encode(cells[i]))
  }

  /** One record: the written fields joined by commas (`row.join(',')`). */
  function EncodeRow(cells: seq<Cell>): string {
    Join(EncodeAll(cells), ',')
  }

  /** The raw fields of a list of texts, as a header row is written. */
  function RawCells(texts: seq<string>): (cells: seq<Cell>)
    ensures |cells| == |texts|
    ensures forall i :: 0 <= i < |texts| ==> cells[i] == Raw(texts[i])
  {
    seq(|texts|, i requires 0 <= i < |texts| => Raw(texts[i]))
  }

  /**
    Reads one record: an enclosed field runs to its closing quote, a raw field
    to the next comma; after a field comes a comma and the next field, or the
    end. `None` for an unclosed field or text after a closing quote.
   */
  function DecodeRow(line: string): Option<seq<Cell>>
    decreases |line|
  {
    if |line| > 0 && line[0] == Quote then
      match ScanQuoted(line[1..])
      case None => None
      case Some(sc) =>
        var rest := line[1 + sc.used..];
        if |rest| == 0 then Some([Quoted(sc.text)])
        else if rest[0] == ',' then
          match DecodeRow(rest[1..])
          case None => None
          case Some(cs) => Some([Quoted(sc.text)] + cs)
        else None
    else if ',' in line then
      var k := IndexOf(line, ',');
      match DecodeRow(line[k + 1..])
      case None => None
      case Some(cs) => Some([Raw(line[..k])] + cs)
    else Some([Raw(line)])
  }

  /** A decodable field alone on a line reads back as itself. */
  lemma DecodeLastCell(c: Cell)
    requires Decodable(c)
    ensures DecodeRow(Encode(c)) == Some([c])
  {
    if c.Quoted? {
      ScanEscaped(c.text, "");
      assert Encode(c)[1..] == EscapeQuotes(c.text) + [Quote] + "";
    }
  }

  /** A plain raw field followed by a comma is read, and reading continues after the comma. */
  lemma DecodeRawThen(x: string, rest: string)
    requires Plain(x)
    ensures DecodeRow(x + [','] + rest) ==
      match DecodeRow(rest) case None => None case Some(cs) => Some([Raw(x)] + cs)
  {
    var line := x + [','] + rest;
    IndexOfAfterPrefix(x, ',', rest);
    assert line[..|x|] == x;
    assert line[|x| + 1..] == rest;
    assert |x| > 0 ==> line[0] == x[0];
  }

  /** An enclosed field followed by a comma is read, and reading continues after the comma. */
  lemma DecodeQuotedThen(x: string, rest: string)
    ensures DecodeRow(QuoteField(x) + [','] + rest) ==
      match DecodeRow(rest) case None => None case Some(cs) => Some([Quoted(x)] + cs)
  {
    var tail := [','] + rest;
    assert QuoteField(x) + [','] + rest == QuoteField(x) + tail;
    EnclosedThen(x, tail);
    ScanEscaped(x, tail);
    assert tail[1..] == rest;
  }

  /** An enclosed field followed by more text: the opening quote, then the escaped body, closing quote and the text. */
  lemma EnclosedThen(x: string, tail: string)
    ensures var line := QuoteField(x) + tail;
      && line[0] == Quote
      && line[1..] == EscapeQuotes(x) + [Quote] + tail
      && line[1 + (|EscapeQuotes(x)| + 1)..] == tail
  {
  }

  /** A decodable field followed by a comma is read, and reading continues after the comma. */
  lemma DecodeCellThen(c: Cell, rest: string)
    requires Decodable(c)
    ensures DecodeRow(Encode(c) + [','] + rest) ==
      match DecodeRow(rest) case None => None case Some(cs) => Some([c] + cs)
  {
    if c.Quoted? {
      DecodeQuotedThen(c.text, rest);
    } else {
      DecodeRawThen(c.text, rest);
    }
  }

  /** Rule 6 and 7 of section 2 of RFC 4180 at work: a record of decodable fields reads back as written. */
  lemma {:induction false} DecodeEncodeRow(cells: seq<Cell>)
    requires |cells| >= 1
    requires forall i :: 0 <= i < |cells| ==> Decodable(cells[i])
    ensures DecodeRow(EncodeRow(cells)) == Some(cells)
    decreases |cells|
  {
    var parts := EncodeAll(cells);
    if |cells| == 1 {
      assert EncodeRow(cells) == Encode(cells[0]);
      DecodeLastCell(cells[0]);
      assert cells == [cells[0]];
    } else {
      assert EncodeAll(cells[1..]) == parts[1..];
      assert EncodeRow(cells) == Encode(cells[0]) + [','] + EncodeRow(cells[1..]);
      DecodeEncodeRow(cells[1..]);
      DecodeCellThen(cells[0], EncodeRow(cells[1..]));
      assert cells == [cells[0]] + cells[1..];
    }
  }

  /** An enclosed field reads back as its text: unescaping undoes the quote doubling. */
  lemma QuoteFieldRoundTrip(s: string)
    ensures DecodeRow(QuoteField(s)) == Some([Quoted(s)])
  {
    DecodeLastCell(Quoted(s));
  }

  /** A join avoids every character that neither the parts nor the separator contain. */
  lemma {:induction false} JoinAvoids(parts: seq<string>, sep: char, c: char)
    requires c != sep
    requires forall k :: 0 <= k < |parts| ==> c !in parts[k]
    ensures c !in Join(parts, sep)
    decreases |parts|
  {
    if |parts| > 1 {
      JoinAvoids(parts[1..], sep, c);
    }
  }

  /** Fields without line feeds give a record without line feeds. */
  lemma RowHasNoLineFeed(cells: seq<Cell>)
    requires forall i :: 0 <= i < |cells| ==> '\n' !in cells[i].text
    ensures '\n' !in EncodeRow(cells)
  {
    var parts := EncodeAll(cells);
    forall k | 0 <= k < |parts| ensures '\n' !in parts[k] {
      EscapeAvoids(cells[k].text, '\n');
    }
    JoinAvoids(parts, ',', '\n');
  }

  /** A raw last field holding a comma is written exactly as two raw fields would be. */
  lemma CommaInLastRawCell(cells: seq<Cell>, a: string, b: string)
    ensures EncodeRow(cells + [Raw(a + [','] + b)]) == EncodeRow(cells + [Raw(a), Raw(b)])
  {
    JoinLastSplit(EncodeAll(cells), a, b, ',');
    assert EncodeAll(cells + [Raw(a + [','] + b)]) == EncodeAll(cells) + [a + [','] + b];
    assert EncodeAll(cells + [Raw(a), Raw(b)]) == EncodeAll(cells) + [a, b];
  }

  lemma {:induction false} JoinLastSplit(parts: seq<string>, a: string, b: string, sep: char)
    ensures Join(parts + [a + [sep] + b], sep) == Join(parts + [a, b], sep)
    decreases |parts|
  {
    if |parts| == 0 {
      assert [a, b][1..] == [b];
    } else {
      JoinLastSplit(parts[1..], a, b, sep);
      assert (parts + [a + [sep] + b])[1..] == parts[1..] + [a + [sep] + b];
      assert (parts + [a, b])[1..] == parts[1..] + [a, b];
    }
  }

  /** A document: the records joined by line feeds (`lines.join('\n')`). */
  function Document(rows: seq<seq<Cell>>): string {
    Join(seq(|rows|, i requires 0 <= i < |rows| => EncodeRow(rows[i])), '\n')
  }

  /** A record whose fields read back and hold no line feed. */
  predicate Readable(cells: seq<Cell>) {
    && |cells| >= 1
    && (forall i :: 0 <= i < |cells| ==> Decodable(cells[i]))
    && (forall i :: 0 <= i < |cells| ==> '\n' !in cells[i].text)
  }

  /** A document of readable records splits into its lines, each of which reads back as its record. */
  lemma DocumentReadsBack(rows: seq<seq<Cell>>)
    requires |rows| >= 1
    requires forall i :: 0 <= i < |rows| ==> Readable(rows[i])
    ensures |Split(Document(rows), '\n')| == |rows|
    ensures forall i :: 0 <= i < |rows| ==> DecodeRow(Split(Document(rows), '\n')[i]) == Some(rows[i])
  {
    var lines := seq(|rows|, i requires 0 <= i < |rows| => EncodeRow(rows[i]));
    forall k | 0 <= k < |lines| ensures '\n' !in lines[k] && DecodeRow(lines[k]) == Some(rows[k]) {
      RowHasNoLineFeed(rows[k]);
      DecodeEncodeRow(rows[k]);
    }
    SplitJoin(lines, '\n');
  }
}
