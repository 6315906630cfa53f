/**
  The exports of both code generations: the CSV text and the rows handed to
  the PDF table. Only the content is modelled; the download and the PDF
  drawing are not. Values the model keeps abstract (stored date strings,
  localized dates, the rendering of reals) are rendered by a `Formatter`
  the caller supplies; integers are rendered as `String(n)` renders them.
 */
module Export {
  import opened Wrappers
  import opened Types
  import opened Text
  import opened Metrics
  import opened Csv

  datatype Formatter = Formatter(
    date: Day -> string,       // the stored date text, `item.date`
    localDate: Day -> string,  // `new Date(item.date).toLocaleDateString('ja-JP')`
    number: real -> string,    // `String(x)` and `x.toString()` of a real
    fixed2: real -> string)    // `x.toFixed(2)`

  /** A decimal integer is plain text: digits and at most a leading minus sign. */
  lemma IntTextPlain(n: int)
    ensures Plain(IntToString(n))
  {
    var s := IntToString(n);
    forall i | 0 <= i < |s| ensures s[i] != ',' && s[i] != Quote && s[i] != '\n' {
    }
  }

  /** The records of the CSV body, one per input record, in input order. */
  function BodyRows(data: seq<Record>, cellsOf: Record -> seq<Cell>): (rows: seq<seq<Cell>>)
    ensures |rows| == |data|
    ensures forall i :: 0 <= i < |data| ==> rows[i] == cellsOf(data[i])
  {
    seq(|data|, i requires 0 <= i < |data| => cellsOf(data[i]))
  }

  /** A CSV text: the header record, then the body records. */
  function CsvText(header: seq<string>, data: seq<Record>, cellsOf: Record -> seq<Cell>): string {
    Document([RawCells(header)] + BodyRows(data, cellsOf))
  }

  /** Reading a CSV text back line by line gives the header and then each record's fields. */
  lemma CsvTextReadsBack(header: seq<string>, data: seq<Record>, cellsOf: Record -> seq<Cell>)
    requires |header| >= 1 && forall k :: 0 <= k < |header| ==> Plain(header[k])
    requires forall i :: 0 <= i < |data| ==> Readable(cellsOf(data[i]))
    ensures |Split(CsvText(header, data, cellsOf), '\n')| == |data| + 1
    ensures DecodeRow(Split(CsvText(header, data, cellsOf), '\n')[0]) == Some(RawCells(header))
    ensures forall i :: 0 <= i < |data| ==>
      DecodeRow(Split(CsvText(header, data, cellsOf), '\n')[i + 1]) == Some(cellsOf(data[i]))
  {
    var rows := [RawCells(header)] + BodyRows(data, cellsOf);
    forall i | 0 <= i < |rows| ensures Readable(rows[i]) {
      if i > 0 {
        assert rows[i] == cellsOf(data[i - 1]);
      }
    }
    DocumentReadsBack(rows);
  }

  // ---------------------------------------------------------------------------
  // The second code generation (`project/src/utils/exportHelpers.ts`)
  // ---------------------------------------------------------------------------

  const ProjectCsvHeader: seq<string> := ["日付", "商品コード", "工程", "実績数量", "不良数", "作業時間(分)", "作業者", "メモ"]

  /** A record's CSV fields: the notes enclosed with quotes doubled, every other field raw. */
  function ProjectCsvCells(fmt: Formatter): Record -> seq<Cell> {
    (r: Record) =>
      [Raw(fmt.date(r.date)), Raw(r.productId), Raw(r.processName), Raw(IntToString(r.actualQuantity)),
       Raw(IntToString(r.defectCount)), Raw(IntToString(r.workMinutes)), Raw(r.workerName), Quoted(r.notes)]
  }

  /** `exportToCSV`: nothing for no records; otherwise the header and one line per record. */
  function ProjectCsv(data: seq<Record>, fmt: Formatter): (content: Option<string>)
    ensures content.None? <==> |data| == 0
  {
    if |data| == 0 then None else Some(CsvText(ProjectCsvHeader, data, ProjectCsvCells(fmt)))
  }

  /** The texts the CSV writes raw hold no comma, quote or line feed, and the notes no line feed. */
  predicate ProjectTextsPlain(r: Record, fmt: Formatter) {
    Plain(fmt.date(r.date)) && Plain(r.productId) && Plain(r.processName) && Plain(r.workerName) && '\n' !in r.notes
  }

  /**
    Reading the project CSV back: one line per record after the header, and
    each line reads back as that record's fields.
   */
  lemma ProjectCsvReadsBack(data: seq<Record>, fmt: Formatter)
    requires |data| > 0
    requires forall i :: 0 <= i < |data| ==> ProjectTextsPlain(data[i], fmt)
    ensures |Split(ProjectCsv(data, fmt).value, '\n')| == |data| + 1
    ensures DecodeRow(Split(ProjectCsv(data, fmt).value, '\n')[0]) == Some(RawCells(ProjectCsvHeader))
    ensures forall i :: 0 <= i < |data| ==>
      DecodeRow(Split(ProjectCsv(data, fmt).value, '\n')[i + 1]) == Some(ProjectCsvCells(fmt)(data[i]))
  {
    forall i | 0 <= i < |data| ensures Readable(ProjectCsvCells(fmt)(data[i])) {
      ProjectRecordReadable(data[i], fmt);
    }
    ProjectHeaderPlain();
    CsvTextReadsBack(ProjectCsvHeader, data, ProjectCsvCells(fmt));
    assert ProjectCsv(data, fmt).value == CsvText(ProjectCsvHeader, data, ProjectCsvCells(fmt));
  }

  /** The column names of the project CSV are plain fields. */
  lemma ProjectHeaderPlain()
    ensures forall k :: 0 <= k < |ProjectCsvHeader| ==> Plain(ProjectCsvHeader[k])
  {
  }

  /** A record whose raw texts are plain and whose notes hold no line feed gives a readable CSV record. */
  lemma ProjectRecordReadable(r: Record, fmt: Formatter)
    requires ProjectTextsPlain(r, fmt)
    ensures Readable(ProjectCsvCells(fmt)(r))
  {
    IntTextPlain(r.actualQuantity);
    IntTextPlain(r.defectCount);
    IntTextPlain(r.workMinutes);
    var cells := ProjectCsvCells(fmt)(r);
    forall k | 0 <= k < |cells| ensures Decodable(cells[k]) && '\n' !in cells[k].text {
    }
  }

  /**
    What a project CSV record's fields hold: one per header, the quantities
    parsing back to the record's, and the notes, whatever quotes and commas
    they hold, as the enclosed last field.
   */
  lemma ProjectCsvCellsMeaning(r: Record, fmt: Formatter)
    ensures |ProjectCsvCells(fmt)(r)| == |ProjectCsvHeader|
    ensures ProjectCsvCells(fmt)(r)[7] == Quoted(r.notes)
    ensures forall k :: 0 <= k < 7 ==> ProjectCsvCells(fmt)(r)[k].Raw?
    ensures ParseInt(ProjectCsvCells(fmt)(r)[3].text) == Some(r.actualQuantity)
    ensures ParseInt(ProjectCsvCells(fmt)(r)[4].text) == Some(r.defectCount)
    ensures ParseInt(ProjectCsvCells(fmt)(r)[5].text) == Some(r.workMinutes)
  {
    IntToStringRoundTrip(r.actualQuantity);
    IntToStringRoundTrip(r.defectCount);
    IntToStringRoundTrip(r.workMinutes);
  }

  const ProjectPdfHeader: seq<string> := ["日付", "商品コード", "工程", "実績数量", "不良数", "作業時間(分)", "作業者"]

  function ProjectPdfRow(r: Record, fmt: Formatter): seq<string> {
    [fmt.date(r.date), r.productId, r.processName, IntToString(r.actualQuantity),
     IntToString(r.defectCount), IntToString(r.workMinutes), r.workerName]
  }

  /**
    The body of the PDF table of `exportToPDF`: nothing for no records;
    otherwise one row per record, in input order, with one cell per header.
   */
  function ProjectPdfRows(data: seq<Record>, fmt: Formatter): (rows: Option<seq<seq<string>>>)
    ensures rows.None? <==> |data| == 0
    ensures rows.Some? ==> |rows.value| == |data|
    ensures rows.Some? ==> forall i :: 0 <= i < |data| ==>
      && |rows.value[i]| == |ProjectPdfHeader|
      && rows.value[i][1] == data[i].productId && rows.value[i][6] == data[i].workerName
      && ParseInt(rows.value[i][3]) == Some(data[i].actualQuantity)
      && ParseInt(rows.value[i][4]) == Some(data[i].defectCount)
      && ParseInt(rows.value[i][5]) == Some(data[i].workMinutes)
  {
    if |data| == 0 then None
    else
      forall i | 0 <= i < |data| {
        ProjectPdfRowReadsBack(data[i], fmt);
      }
      Some(seq(|data|, i requires 0 <= i < |data| => ProjectPdfRow(data[i], fmt)))
  }

  /** A PDF row has a cell per header, and its identifiers and counts read back as the record's. */
  lemma ProjectPdfRowReadsBack(r: Record, fmt: Formatter)
    ensures var row := ProjectPdfRow(r, fmt);
      && |row| == |ProjectPdfHeader|
      && row[1] == r.productId && row[6] == r.workerName
      && ParseInt(row[3]) == Some(r.actualQuantity)
      && ParseInt(row[4]) == Some(r.defectCount)
      && ParseInt(row[5]) == Some(r.workMinutes)
  {
    IntToStringRoundTrip(r.actualQuantity);
    IntToStringRoundTrip(r.defectCount);
    IntToStringRoundTrip(r.workMinutes);
  }

  /** The PDF row shows the CSV record's fields without the notes. */
  lemma ProjectPdfMatchesCsv(r: Record, fmt: Formatter)
    ensures |ProjectPdfRow(r, fmt)| + 1 == |ProjectCsvCells(fmt)(r)|
    ensures forall k :: 0 <= k < |ProjectPdfRow(r, fmt)| ==>
      ProjectCsvCells(fmt)(r)[k] == Raw(ProjectPdfRow(r, fmt)[k])
  {
  }

  // ---------------------------------------------------------------------------
  // The first code generation (`src/utils/exportHelpers.ts`)
  // ---------------------------------------------------------------------------

  const SrcCsvHeader: seq<string> := ["日付", "製品名", "計画数量", "実績数量", "不良数", "作業時間", "作業者数",
                                       "効率(%)", "不良率(%)", "生産性", "作業者あたり生産量", "メモ"]

  /** An optional quantity as `join` writes it: an absent value as the empty string. */
  function OptionalIntText(v: Option<int>): (s: string)
    ensures v.None? <==> |s| == 0
    ensures v.Some? ==> ParseInt(s) == Some(v.value)
  {
    match v
    case None => ""
    case Some(n) =>
      IntToStringRoundTrip(n);
      IntToString(n)
  }

  /** The eleven fields before the notes: record values, then the four metrics rounded to two places. */
  function SrcLeadingCells(r: Record, fmt: Formatter): (cells: seq<Cell>)
    ensures |cells| == |SrcCsvHeader| - 1
  {
    [Raw(fmt.date(r.date)), Raw(r.productName), Raw(OptionalIntText(r.plannedQuantity)),
     Raw(IntToString(r.actualQuantity)), Raw(IntToString(r.defectCount)), Raw(fmt.number(r.workHours)),
     Raw(IntToString(r.workers)), Raw(fmt.fixed2(Efficiency(r))), Raw(fmt.fixed2(DefectRate(r))),
     Raw(fmt.fixed2(Productivity(r))), Raw(fmt.fixed2(OutputPerWorker(r)))]
  }

  /** The fields as the source writes them: the notes raw like every other field. */
  function SrcCsvCellsAsWritten(fmt: Formatter): Record -> seq<Cell> {
    (r: Record) => SrcLeadingCells(r, fmt) + [Raw(r.notes)]
  }

  /** The fields with the notes enclosed and their quotes doubled, as the second generation writes them. */
  function SrcCsvCells(fmt: Formatter): Record -> seq<Cell> {
    (r: Record) => SrcLeadingCells(r, fmt) + [Quoted(r.notes)]
  }

  /** `exportToCSV` as written: nothing for no records, otherwise header and records, no field enclosed. */
  function SrcCsvAsWritten(data: seq<Record>, fmt: Formatter): (content: Option<string>)
    ensures content.None? <==> |data| == 0
  {
    if |data| == 0 then None else Some(CsvText(SrcCsvHeader, data, SrcCsvCellsAsWritten(fmt)))
  }

  /** `exportToCSV` with the notes field enclosed. */
  function SrcCsv(data: seq<Record>, fmt: Formatter): (content: Option<string>)
    ensures content.None? <==> |data| == 0
  {
    if |data| == 0 then None else Some(CsvText(SrcCsvHeader, data, SrcCsvCells(fmt)))
  }

  /** The rendered texts of the leading fields hold no comma, quote or line feed. */
  predicate SrcTextsPlain(r: Record, fmt: Formatter) {
    && Plain(fmt.date(r.date)) && Plain(r.productName) && Plain(fmt.number(r.workHours))
    && Plain(fmt.fixed2(Efficiency(r))) && Plain(fmt.fixed2(DefectRate(r)))
    && Plain(fmt.fixed2(Productivity(r))) && Plain(fmt.fixed2(OutputPerWorker(r)))
  }

  /** The leading fields of a record with plain texts all read back. */
  lemma SrcLeadingReadable(r: Record, fmt: Formatter)
    requires SrcTextsPlain(r, fmt)
    ensures forall k :: 0 <= k < |SrcLeadingCells(r, fmt)| ==> Plain(SrcLeadingCells(r, fmt)[k].text)
  {
    IntTextPlain(r.actualQuantity);
    IntTextPlain(r.defectCount);
    IntTextPlain(r.workers);
    if r.plannedQuantity.Some? {
      IntTextPlain(r.plannedQuantity.value);
    }
  }

  /**
    A note holding a comma splits the as-written record: it reads back with
    thirteen fields under a twelve-field header, the note cut in two.
   */
  lemma SrcCsvCommaInNotes(r: Record, fmt: Formatter, a: string, b: string)
    requires SrcTextsPlain(r, fmt) && Plain(a) && Plain(b) && r.notes == a + [','] + b
    ensures DecodeRow(EncodeRow(SrcCsvCellsAsWritten(fmt)(r))) ==
      Some(SrcLeadingCells(r, fmt) + [Raw(a), Raw(b)])
    ensures |SrcLeadingCells(r, fmt) + [Raw(a), Raw(b)]| == |SrcCsvHeader| + 1
  {
    var lead := SrcLeadingCells(r, fmt);
    CommaInLastRawCell(lead, a, b);
    SrcLeadingReadable(r, fmt);
    var cells := lead + [Raw(a), Raw(b)];
    forall k | 0 <= k < |cells| ensures Decodable(cells[k]) {
      if k < |lead| {
        assert cells[k] == lead[k];
      }
    }
    DecodeEncodeRow(cells);
  }

  /**
    Reading the CSV with enclosed notes back: one line per record after the
    header, and each line reads back as that record's twelve fields.
   */
  lemma SrcCsvReadsBack(data: seq<Record>, fmt: Formatter)
    requires |data| > 0
    requires forall i :: 0 <= i < |data| ==> SrcTextsPlain(data[i], fmt) && '\n' !in data[i].notes
    ensures |Split(SrcCsv(data, fmt).value, '\n')| == |data| + 1
    ensures DecodeRow(Split(SrcCsv(data, fmt).value, '\n')[0]) == Some(RawCells(SrcCsvHeader))
    ensures forall i :: 0 <= i < |data| ==>
      DecodeRow(Split(SrcCsv(data, fmt).value, '\n')[i + 1]) == Some(SrcCsvCells(fmt)(data[i]))
  {
    forall i | 0 <= i < |data| ensures Readable(SrcCsvCells(fmt)(data[i])) {
      SrcRecordReadable(data[i], fmt);
    }
    SrcHeaderPlain();
    CsvTextReadsBack(SrcCsvHeader, data, SrcCsvCells(fmt));
    assert SrcCsv(data, fmt).value == CsvText(SrcCsvHeader, data, SrcCsvCells(fmt));
  }

  /**
    Reading the CSV as written back: when no text of any record holds a comma,
    a double quote or a line feed, there is one line per record after the
    header, and each line reads back as that record's twelve raw fields.
   */
  lemma SrcCsvAsWrittenReadsBack(data: seq<Record>, fmt: Formatter)
    requires |data| > 0
    requires forall i :: 0 <= i < |data| ==> SrcTextsPlain(data[i], fmt) && Plain(data[i].notes)
    ensures |Split(SrcCsvAsWritten(data, fmt).value, '\n')| == |data| + 1
    ensures DecodeRow(Split(SrcCsvAsWritten(data, fmt).value, '\n')[0]) == Some(RawCells(SrcCsvHeader))
    ensures forall i :: 0 <= i < |data| ==>
      DecodeRow(Split(SrcCsvAsWritten(data, fmt).value, '\n')[i + 1]) == Some(SrcCsvCellsAsWritten(fmt)(data[i]))
    ensures forall i :: 0 <= i < |data| ==> AllRaw(SrcCsvCellsAsWritten(fmt)(data[i]), |SrcCsvHeader|)
  {
    forall i | 0 <= i < |data|
      ensures Readable(SrcCsvCellsAsWritten(fmt)(data[i])) && AllRaw(SrcCsvCellsAsWritten(fmt)(data[i]), |SrcCsvHeader|)
    {
      SrcAsWrittenRecordReadable(data[i], fmt);
    }
    SrcHeaderPlain();
    CsvTextReadsBack(SrcCsvHeader, data, SrcCsvCellsAsWritten(fmt));
    assert SrcCsvAsWritten(data, fmt).value == CsvText(SrcCsvHeader, data, SrcCsvCellsAsWritten(fmt));
  }

  /** `n` fields, none of them enclosed. */
  predicate AllRaw(cells: seq<Cell>, n: nat) {
    |cells| == n && forall k :: 0 <= k < |cells| ==> cells[k].Raw?
  }

  /** A record whose texts, notes included, are plain gives a readable CSV record as written. */
  lemma SrcAsWrittenRecordReadable(r: Record, fmt: Formatter)
    requires SrcTextsPlain(r, fmt) && Plain(r.notes)
    ensures Readable(SrcCsvCellsAsWritten(fmt)(r))
    ensures AllRaw(SrcCsvCellsAsWritten(fmt)(r), |SrcCsvHeader|)
  {
    SrcLeadingReadable(r, fmt);
    var cells := SrcCsvCellsAsWritten(fmt)(r);
    forall k | 0 <= k < |cells| ensures Decodable(cells[k]) && '\n' !in cells[k].text && cells[k].Raw? {
      if k < 11 {
        assert cells[k] == SrcLeadingCells(r, fmt)[k];
      }
    }
  }

  /** The column names of the first generation's CSV are plain fields. */
  lemma SrcHeaderPlain()
    ensures forall k :: 0 <= k < |SrcCsvHeader| ==> Plain(SrcCsvHeader[k])
  {
  }

  /** A record with plain texts and a note without line feeds gives a readable CSV record. */
  lemma SrcRecordReadable(r: Record, fmt: Formatter)
    requires SrcTextsPlain(r, fmt) && '\n' !in r.notes
    ensures Readable(SrcCsvCells(fmt)(r))
  {
    SrcLeadingReadable(r, fmt);
    var cells := SrcCsvCells(fmt)(r);
    forall k | 0 <= k < |cells| ensures Decodable(cells[k]) && '\n' !in cells[k].text {
      if k < 11 {
        assert cells[k] == SrcLeadingCells(r, fmt)[k];
      }
    }
  }

  /**
    What a CSV record with enclosed notes holds: one field per header, the
    planned and actual quantities parsing back, the metric columns holding
    the record's metrics as rendered, and the notes as the enclosed last field.
   */
  lemma SrcCsvCellsMeaning(r: Record, fmt: Formatter)
    ensures var cells := SrcCsvCells(fmt)(r);
      && |cells| == |SrcCsvHeader|
      && cells[11] == Quoted(r.notes)
      && (r.plannedQuantity.Some? ==> ParseInt(cells[2].text) == Some(r.plannedQuantity.value))
      && (r.plannedQuantity.None? ==> cells[2] == Raw(""))
      && ParseInt(cells[3].text) == Some(r.actualQuantity)
      && cells[7] == Raw(fmt.fixed2(Efficiency(r)))
      && cells[8] == Raw(fmt.fixed2(DefectRate(r)))
      && cells[9] == Raw(fmt.fixed2(Productivity(r)))
      && cells[10] == Raw(fmt.fixed2(OutputPerWorker(r)))
  {
    var lead := SrcLeadingCells(r, fmt);
    assert SrcCsvCells(fmt)(r) == lead + [Quoted(r.notes)];
    IntToStringRoundTrip(r.actualQuantity);
  }

  /** Why the first generation's PDF export produces no report. */
  datatype PdfError = NoData | PlannedMissing

  /** The report period and the body of its table. */
  datatype PdfReport = PdfReport(from: Day, to: Day, rows: seq<seq<string>>)

  /** The earliest date among the records (`Math.min` over their times). */
  function EarliestDate(data: seq<Record>): (d: Day)
    requires |data| > 0
    ensures forall i :: 0 <= i < |data| ==> d <= data[i].date
    ensures exists i :: 0 <= i < |data| && data[i].date == d
    decreases |data|
  {
    if |data| == 1 then data[0].date
    else
      var m := EarliestDate(data[1..]);
      var k :| 0 <= k < |data[1..]| && data[1..][k].date == m;
      assert data[k + 1].date == m;
      if data[0].date <= m then data[0].date else m
  }

  /** The latest date among the records (`Math.max` over their times). */
  function LatestDate(data: seq<Record>): (d: Day)
    requires |data| > 0
    ensures forall i :: 0 <= i < |data| ==> data[i].date <= d
    ensures exists i :: 0 <= i < |data| && data[i].date == d
    decreases |data|
  {
    if |data| == 1 then data[0].date
    else
      var m := LatestDate(data[1..]);
      var k :| 0 <= k < |data[1..]| && data[1..][k].date == m;
      assert data[k + 1].date == m;
      if data[0].date >= m then data[0].date else m
  }

  /** A record's PDF row; the planned quantity is rendered with `toString`, so it must be present. */
  function SrcPdfRow(r: Record, fmt: Formatter): seq<string>
    requires r.plannedQuantity.Some?
  {
    [fmt.localDate(r.date), r.productName, IntToString(r.plannedQuantity.value),
     IntToString(r.actualQuantity), IntToString(r.defectCount), fmt.number(r.workHours),
     IntToString(r.workers), fmt.fixed2(Efficiency(r)) + "%", fmt.fixed2(DefectRate(r)) + "%",
     fmt.fixed2(Productivity(r)), fmt.fixed2(OutputPerWorker(r)), r.notes]
  }

  /** A PDF row has one cell per header, its quantities parse back and its last cell is the notes. */
  lemma SrcPdfRowMeaning(r: Record, fmt: Formatter)
    requires r.plannedQuantity.Some?
    ensures |SrcPdfRow(r, fmt)| == |SrcPdfHeader|
    ensures ParseInt(SrcPdfRow(r, fmt)[2]) == Some(r.plannedQuantity.value)
    ensures ParseInt(SrcPdfRow(r, fmt)[3]) == Some(r.actualQuantity)
    ensures SrcPdfRow(r, fmt)[11] == r.notes
  {
    IntToStringRoundTrip(r.plannedQuantity.value);
    IntToStringRoundTrip(r.actualQuantity);
  }

  const SrcPdfHeader: seq<string> := ["日付", "製品名", "計画", "実績", "不良", "時間", "人数", "効率", "不良率", "生産性", "人当生産", "メモ"]

  /** Every record has a planned quantity. */
  predicate AllPlanned(data: seq<Record>) {
    forall i :: 0 <= i < |data| ==> data[i].plannedQuantity.Some?
  }

  /** The body of the report table: one row per record, in input order, one cell per header. */
  function SrcPdfRows(data: seq<Record>, fmt: Formatter): (rows: seq<seq<string>>)
    requires AllPlanned(data)
    ensures |rows| == |data|
    ensures forall i :: 0 <= i < |data| ==>
      && |rows[i]| == |SrcPdfHeader|
      && ParseInt(rows[i][2]) == Some(data[i].plannedQuantity.value)
      && ParseInt(rows[i][3]) == Some(data[i].actualQuantity)
      && rows[i][11] == data[i].notes
  {
    var rows := seq(|data|, i requires 0 <= i < |data| => SrcPdfRow(data[i], fmt));
    forall i | 0 <= i < |data|
      ensures |rows[i]| == |SrcPdfHeader|
      ensures ParseInt(rows[i][2]) == Some(data[i].plannedQuantity.value)
      ensures ParseInt(rows[i][3]) == Some(data[i].actualQuantity)
      ensures rows[i][11] == data[i].notes
    {
      SrcPdfRowMeaning(data[i], fmt);
    }
    rows
  }

  /**
    `exportToPDF`: no report for no records; `plannedQuantity.toString()`
    throws on a record without a planned quantity, so that ends the export
    too. Otherwise the period runs from the earliest to the latest date and
    the table holds the rows of `SrcPdfRows`.
   */
  function SrcPdf(data: seq<Record>, fmt: Formatter): (r: Result<PdfReport, PdfError>)
    ensures r == Err(NoData) <==> |data| == 0
    ensures r == Err(PlannedMissing) <==> |data| > 0 && !AllPlanned(data)
    ensures r.Ok? ==> r.value.from <= r.value.to
    ensures r.Ok? ==> forall i :: 0 <= i < |data| ==> r.value.from <= data[i].date <= r.value.to
    ensures r.Ok? ==> exists i :: 0 <= i < |data| && data[i].date == r.value.from
    ensures r.Ok? ==> exists j :: 0 <= j < |data| && data[j].date == r.value.to
    ensures r.Ok? ==> AllPlanned(data) && r.value.rows == SrcPdfRows(data, fmt)
  {
    if |data| == 0 then Err(NoData)
    else if !AllPlanned(data) then Err(PlannedMissing)
    else Ok(PdfReport(EarliestDate(data), LatestDate(data), SrcPdfRows(data, fmt)))
  }
}
