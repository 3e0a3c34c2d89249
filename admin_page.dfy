/** The admin dashboard's pure rules, app/admin/page.tsx: the CSV export,
    the location filter's query suffix and when "Generate Code" is
    offered. Logging in, loading and the download itself are outside the
    model. */
module AdminPage {
  import opened Optional
  import opened Strings
  import opened Js
  import opened Url
  import opened Types
  import CodeGeneration

  // ---------------------------------------------------------------------
  // CSV export

  /** A row of the exported data: `Object.keys(row)` in order, and the
      row's values. */
  datatype Record = Record(keys: seq<string>, fields: map<string, Json>)

  /** `.replace(/"/g, '""')` */
  function DoubleQuotes(s: string): (r: string)
    ensures |r| >= |s|
  {
    if s == [] then [] else (if s[0] == '"' then ['"', '"'] else [s[0]]) + DoubleQuotes(s[1..])
  }

  /** Text without quotes needs no doubling. */
  lemma {:induction false} DoubleQuotesOfPlain(s: string)
    requires '"' !in s
    ensures DoubleQuotes(s) == s
  {
    if s != [] {
      DoubleQuotesOfPlain(s[1..]);
      assert [s[0]] + s[1..] == s;
    }
  }

  function Quote(s: string): string {
    ['"'] + s + ['"']
  }

  /** The text a field stands for: a list's elements joined by "; ", any
      other value as `String(value || '')`, so that 0, false, null and
      undefined, and a key the row lacks, give the empty text. */
  function CellText(value: Json): (text: string)
    ensures !value.Arr? && !Truthy(value) ==> text == ""
    ensures !value.Arr? && Truthy(value) ==> text == ToJsString(value)
  {
    if value.Arr? then Join(ElementStrings(value.items), "; ") else ToJsString(Or(value, Str("")))
  }

  /** A field as written: quoted, with quotes doubled except in a list. */
  function Cell(value: Json): string {
    if value.Arr? then Quote(CellText(value)) else Quote(DoubleQuotes(CellText(value)))
  }

  function Cells(headers: seq<string>, row: Record): (cells: seq<string>)
    ensures |cells| == |headers|
    ensures forall i :: 0 <= i < |headers| ==> cells[i] == Cell(Get(row.fields, headers[i]))
  {
    seq(|headers|, i requires 0 <= i < |headers| => Cell(Get(row.fields, headers[i])))
  }

  /** A data line: the row's fields in the header order, joined by ",". */
  function Line(headers: seq<string>, row: Record): string {
    Join(Cells(headers, row), ",")
  }

  function Lines(headers: seq<string>, data: seq<Record>): (lines: seq<string>)
    ensures |lines| == |data|
    ensures forall i :: 0 <= i < |data| ==> lines[i] == Line(headers, data[i])
  {
    seq(|data|, i requires 0 <= i < |data| => Line(headers, data[i]))
  }

  /** `exportToCSV`'s text: nothing for no data; else the first row's keys
      joined by "," and then one line per row, joined by "\n". */
  function ExportToCsv(data: seq<Record>): (csv: Option<string>)
    ensures csv.None? <==> data == []
  {
    if data == [] then None
    else
      var headers := data[0].keys;
      Some(Join([Join(headers, ",")] + Lines(headers, data), "\n"))
  }

  // ---------------------------------------------------------------------
  // Reading the export back (section 2 of RFC 4180)

  /** Reads a quoted field after its opening quote, up to the closing
      quote, taking `""` as one quote: the text and what follows. */
  function ReadQuoted(s: string): (r: Option<(string, string)>)
    ensures r.Some? ==> |r.value.1| < |s|
    decreases |s|
  {
    if s == [] then None
    else if s[0] == '"' then
      if |s| >= 2 && s[1] == '"' then
        match ReadQuoted(s[2..])
        case None => None
        case Some(p) => Some((['"'] + p.0, p.1))
      else Some(([], s[1..]))
    else
      match ReadQuoted(s[1..])
      case None => None
      case Some(p) => Some(([s[0]] + p.0, p.1))
  }

  /** Reads a line of quoted fields separated by commas. */
  function ReadRecord(s: string): Option<seq<string>>
    decreases |s|
  {
    if s == [] || s[0] != '"' then None
    else
      match ReadQuoted(s[1..])
      case None => None
      case Some(p) =>
        if p.1 == [] then Some([p.0])
        else if p.1[0] == ',' then
          match ReadRecord(p.1[1..])
          case None => None
          case Some(rest) => Some([p.0] + rest)
        else None
  }

  /** A doubled text followed by the closing quote reads back as the text,
      when what follows the field is not itself a quote. */
  lemma {:induction false} ReadQuotedOfDoubled(t: string, rest: string)
    requires rest == [] || rest[0] != '"'
    ensures ReadQuoted(DoubleQuotes(t) + ['"'] + rest) == Some((t, rest))
    decreases |t|
  {
    var s := DoubleQuotes(t) + ['"'] + rest;
    if t == [] {
      assert s == ['"'] + rest;
      assert s[1..] == rest;
    } else {
      ReadQuotedOfDoubled(t[1..], rest);
      var tail := DoubleQuotes(t[1..]) + ['"'] + rest;
      if t[0] == '"' {
        assert s == ['"', '"'] + tail;
        assert s[2..] == tail;
      } else {
        assert s == [t[0]] + tail;
        assert s[1..] == tail;
      }
      assert [t[0]] + t[1..] == t;
    }
  }

  function QuotedCells(texts: seq<string>): (cells: seq<string>)
    ensures |cells| == |texts|
    ensures forall i :: 0 <= i < |texts| ==> cells[i] == Quote(DoubleQuotes(texts[i]))
  {
    seq(|texts|, i requires 0 <= i < |texts| => Quote(DoubleQuotes(texts[i])))
  }

  /** Quoted, doubled fields joined by commas read back as their texts. */
  lemma {:induction false} ReadRecordOfQuoted(texts: seq<string>)
    requires texts != []
    ensures ReadRecord(Join(QuotedCells(texts), ",")) == Some(texts)
    decreases |texts|
  {
    var cells := QuotedCells(texts);
    var line := Join(cells, ",");
    if |texts| == 1 {
      assert line == cells[0];
      assert line[1..] == DoubleQuotes(texts[0]) + ['"'] + [];
      ReadQuotedOfDoubled(texts[0], []);
      assert texts == [texts[0]];
    } else {
      var restLine := Join(cells[1..], ",");
      assert cells[1..] == QuotedCells(texts[1..]);
      ReadRecordOfQuoted(texts[1..]);
      assert line[1..] == DoubleQuotes(texts[0]) + ['"'] + ([','] + restLine);
      ReadQuotedOfDoubled(texts[0], [','] + restLine);
      assert ([','] + restLine)[1..] == restLine;
      assert texts == [texts[0]] + texts[1..];
    }
  }

  /** The texts of a row's fields in the header order. */
  function Texts(headers: seq<string>, row: Record): (texts: seq<string>)
    ensures |texts| == |headers|
    ensures forall i :: 0 <= i < |headers| ==> texts[i] == CellText(Get(row.fields, headers[i]))
  {
    seq(|headers|, i requires 0 <= i < |headers| => CellText(Get(row.fields, headers[i])))
  }

  /** A list field reads back only while its elements hold no quote: lists
      are written without doubling. */
  predicate ListsUnquoted(headers: seq<string>, row: Record) {
    forall i :: 0 <= i < |headers| && Get(row.fields, headers[i]).Arr? ==> '"' !in CellText(Get(row.fields, headers[i]))
  }

  /** A data line is a record of section 2 of RFC 4180 whose fields read
      back as the row's texts in the header order. */
  lemma LineReadsBack(headers: seq<string>, row: Record)
    requires headers != []
    requires ListsUnquoted(headers, row)
    ensures ReadRecord(Line(headers, row)) == Some(Texts(headers, row))
  {
    var texts := Texts(headers, row);
    forall i | 0 <= i < |headers| ensures Cells(headers, row)[i] == QuotedCells(texts)[i] {
      if Get(row.fields, headers[i]).Arr? {
        DoubleQuotesOfPlain(texts[i]);
      }
    }
    assert Cells(headers, row) == QuotedCells(texts);
    ReadRecordOfQuoted(texts);
  }

  /** When no key holds a comma, the header line splits back into the
      first row's keys. */
  lemma HeaderReadsBack(keys: seq<string>)
    requires keys != []
    requires forall k :: k in keys ==> ',' !in k
    ensures Split(Join(keys, ","), ',') == keys
  {
    SplitOfJoin(keys, ',');
  }

  /** When no field holds a line break, the export is the header line and
      then exactly one line per row, in order, each in the first row's key
      order. */
  lemma ExportLines(data: seq<Record>)
    requires data != []
    requires forall k :: k in data[0].keys ==> '\n' !in k
    requires forall i :: 0 <= i < |data| ==> '\n' !in Line(data[0].keys, data[i])
    ensures Split(ExportToCsv(data).value, '\n') == [Join(data[0].keys, ",")] + Lines(data[0].keys, data)
  {
    var headers := data[0].keys;
    var lines := [Join(headers, ",")] + Lines(headers, data);
    assert '\n' !in Join(headers, ",") by {
      JoinAvoids(headers, ",", '\n');
    }
    forall p | p in lines ensures '\n' !in p {
      if p != lines[0] {
        var i :| 0 <= i < |lines| && lines[i] == p;
        assert p == Line(headers, data[i - 1]);
      }
    }
    SplitOfJoin(lines, '\n');
  }

  /** Joining pieces that avoid a character, with a separator that avoids
      it, avoids it. */
  lemma {:induction false} JoinAvoids(parts: seq<string>, sep: string, c: char)
    requires c !in sep
    requires forall p :: p in parts ==> c !in p
    ensures c !in Join(parts, sep)
    decreases |parts|
  {
    if |parts| > 1 {
      JoinAvoids(parts[1..], sep, c);
      assert parts[0] in parts;
    } else if |parts| == 1 {
      assert parts[0] in parts;
    }
  }

  // ---------------------------------------------------------------------
  // Location filter

  /** The location selector: every location, or one. */
  datatype Selection = All | Only(location: Location)

  /** The suffix `loadRSVPs` and `loadData` append to `/api/admin/rsvps`. */
  function LocationQuery(selected: Selection): (query: string)
    ensures selected.All? <==> query == ""
  {
    match selected
    case All => ""
    case Only(location) => "?" + LocationParam(location)
  }

  function LocationParam(location: Location): string {
    "location" + "=" + UriEncode(location.Name())
  }

  /** A selected location reaches the route as exactly one `location`
      parameter whose value decodes to the location's name. */
  lemma LocationQueryReadsBack(location: Location)
    ensures var read := ReadQuery(LocationQuery(Only(location))[1..]);
      |read| == 1 && read[0].value == Utf8Of(location.Name())
  {
    ReadQueryOfUriParam("location", location.Name());
    DropMark('?', LocationParam(location));
  }

  lemma DropMark(mark: char, rest: string)
    ensures ([mark] + rest)[1..] == rest
  {
  }

  // ---------------------------------------------------------------------
  // Generate Code

  /** `!guest.invite_code`: the button is offered only to a guest without
      a code. */
  predicate CanGenerateCode(guest: Guest) {
    guest.inviteCode == ""
  }

  /** Once a guest holds a generated code, the button is gone. */
  lemma GeneratedCodeHidesButton(guest: Guest)
    requires CodeGeneration.IsGeneratedCode(guest.inviteCode)
    ensures !CanGenerateCode(guest)
  {
  }
}
