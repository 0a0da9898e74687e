/**
 * The text of `exportToCSV`: a header line made of the first row's keys and
 * one line per row with that row's value for every header, quoted by
 * `JSON.stringify`, fields joined with "," and lines with a newline.
 */
module CsvExport {
  import opened Wrappers
  import opened Strings

  /** A field value of a row object. */
  datatype Json = JNull | JStr(s: string) | JNum(n: int) | JBool(b: bool)

  /** A row object: its keys in the order `Object.keys` lists them, with their values. */
  type Row = seq<(string, Json)>

  /** `Object.keys(row)`. */
  function Keys(row: Row): (r: seq<string>)
    ensures |r| == |row| && forall j :: 0 <= j < |row| ==> r[j] == row[j].0
  {
    if row == [] then [] else [row[0].0] + Keys(row[1..])
  }

  /** `row[key]`: the value under the key, or undefined. */
  function Lookup(row: Row, key: string): (r: Option<Json>)
    ensures r.Some? <==> exists j :: 0 <= j < |row| && row[j].0 == key
    ensures r.Some? ==> exists j :: 0 <= j < |row| && row[j] == (key, r.value)
  {
    if row == [] then None
    else if row[0].0 == key then Some(row[0].1)
    else Lookup(row[1..], key)
  }

  /** `row[header] ?? ""`: a missing or null value becomes the empty string. */
  function CellValue(row: Row, header: string): Json {
    match Lookup(row, header)
    case None => JStr("")
    case Some(JNull) => JStr("")
    case Some(v) => v
  }

  /** `headers.map((header) => JSON.stringify(row[header] ?? ""))`. */
  function Fields(row: Row, headers: seq<string>, stringify: Json -> string): (r: seq<string>)
    ensures |r| == |headers|
    ensures forall j :: 0 <= j < |headers| ==> r[j] == stringify(CellValue(row, headers[j]))
  {
    if headers == [] then []
    else [stringify(CellValue(row, headers[0]))] + Fields(row, headers[1..], stringify)
  }

  function DataLines(data: seq<Row>, headers: seq<string>, stringify: Json -> string): (r: seq<string>)
    ensures |r| == |data|
    ensures forall k :: 0 <= k < |data| ==> r[k] == Join(Fields(data[k], headers, stringify), ',')
  {
    if data == [] then []
    else [Join(Fields(data[0], headers, stringify), ',')] + DataLines(data[1..], headers, stringify)
  }

  /** The lines of the file for non-empty data. */
  function CsvLines(data: seq<Row>, stringify: Json -> string): seq<string>
    requires |data| > 0
  {
    var headers := Keys(data[0]);
    [Join(headers, ',')] + DataLines(data, headers, stringify)
  }

  /** `csvContent`; `None` for empty data, where the export returns before building any text. */
  function CsvContent(data: seq<Row>, stringify: Json -> string): Option<string>
  {
    if |data| == 0 then None
    else Some(Join(CsvLines(data, stringify), '\n'))
  }

  /**
   * The header line lists the first row's keys; line k + 1 has, for every
   * header in header order, the quoted value of row k under that header.
   */
  lemma CsvShape(data: seq<Row>, stringify: Json -> string)
    requires |data| > 0
    ensures |CsvLines(data, stringify)| == |data| + 1
    ensures CsvLines(data, stringify)[0] == Join(Keys(data[0]), ',')
    ensures forall k :: 0 <= k < |data| ==>
      CsvLines(data, stringify)[k + 1] == Join(Fields(data[k], Keys(data[0]), stringify), ',') &&
      |Fields(data[k], Keys(data[0]), stringify)| == |data[0]|
  {
    var lines := CsvLines(data, stringify);
    forall k | 0 <= k < |data|
      ensures lines[k + 1] == Join(Fields(data[k], Keys(data[0]), stringify), ',')
    {
      assert lines[k + 1] == DataLines(data, Keys(data[0]), stringify)[k];
    }
  }

  /**
   * `JSON.stringify` never emits a raw newline; when no header holds one either,
   * the text splits back into exactly its `data.length + 1` lines: first the
   * first row's keys, then, for each row in order, that row's quoted values
   * under those keys.
   */
  lemma CsvLineCount(data: seq<Row>, stringify: Json -> string)
    requires |data| > 0
    requires forall v :: '\n' !in stringify(v)
    requires forall j :: 0 <= j < |data[0]| ==> '\n' !in data[0][j].0
    ensures var lines := Split(CsvContent(data, stringify).value, '\n');
      && |lines| == |data| + 1
      && lines[0] == Join(Keys(data[0]), ',')
      && forall k :: 0 <= k < |data| ==> lines[k + 1] == Join(Fields(data[k], Keys(data[0]), stringify), ',')
  {
    var headers := Keys(data[0]);
    var lines := CsvLines(data, stringify);
    CsvShape(data, stringify);
    forall i | 0 <= i < |lines| ensures '\n' !in lines[i] {
      if i == 0 {
        JoinAvoids(headers, ',', '\n');
      } else {
        var fields := Fields(data[i - 1], headers, stringify);
        JoinAvoids(fields, ',', '\n');
      }
    }
    SplitJoin(lines, '\n');
  }

  /**
   * A data line splits on "," back into one quoted cell per header, in header
   * order, as long as no cell's text holds a comma.
   */
  lemma CsvFieldsSplit(row: Row, headers: seq<string>, stringify: Json -> string)
    requires |headers| > 0
    requires forall j :: 0 <= j < |headers| ==> ',' !in stringify(CellValue(row, headers[j]))
    ensures var cells := Split(Join(Fields(row, headers, stringify), ','), ',');
      && |cells| == |headers|
      && forall j :: 0 <= j < |headers| ==> cells[j] == stringify(CellValue(row, headers[j]))
  {
    SplitJoin(Fields(row, headers, stringify), ',');
  }
}
