/** The "Next Train" page: two dropdowns chosen from the station table (line name, then a
    "name - code" station label), one request to the MTR schedule service, and a view of
    the UP and DOWN timetables in the JSON it returns. */
module NextTrain {
  import opened Wrappers
  import opened Sequences
  import opened Text

  /** One row of the station table: columns `Line_name`, `Line`, `Station_name`, `Station`. */
  datatype StationRow = StationRow(lineName: string, line: string, stationName: string, station: string)

  /** The first entry of both dropdowns. */
  const Placeholder: string := "Select..."

  /** The separator inside a station label. */
  const Sep: string := " - "

  /* ---------------- line dropdown ---------------- */

  function LineNameColumn(rows: seq<StationRow>): (r: seq<string>)
    ensures |r| == |rows|
    ensures forall j :: 0 <= j < |rows| ==> r[j] == rows[j].lineName
  {
    if rows == [] then [] else LineNameColumn(rows[..|rows| - 1]) + [rows[|rows| - 1].lineName]
  }

  /** `df['Line_name'].unique().tolist()`. */
  function LineNames(rows: seq<StationRow>): seq<string> {
    Distinct(LineNameColumn(rows))
  }

  /** Each line name is offered once, every name in the table is offered, and the names
      appear in order of their first row. */
  lemma LineNamesInFirstAppearanceOrder(rows: seq<StationRow>)
    ensures NoDuplicates(LineNames(rows))
    ensures forall j :: 0 <= j < |rows| ==> rows[j].lineName in LineNames(rows)
    ensures forall name :: name in LineNames(rows) ==> exists j :: 0 <= j < |rows| && rows[j].lineName == name
    ensures forall i, j :: 0 <= i < j < |LineNames(rows)| ==>
      FirstIndex(LineNameColumn(rows), LineNames(rows)[i]) < FirstIndex(LineNameColumn(rows), LineNames(rows)[j])
  {
    var c := LineNameColumn(rows);
    forall j | 0 <= j < |rows| ensures rows[j].lineName in LineNames(rows) {
      assert c[j] in c;
    }
    DistinctFollowsFirstOccurrence(c);
  }

  /** `df[df['Line_name'] == name]['Line'].values[0]`: the line code of the first row with
      that line name, and `IndexError` when there is none. */
  function LineCode(rows: seq<StationRow>, name: string): (r: Result<string, PyError>)
    ensures r.Ok? <==> exists j :: 0 <= j < |rows| && rows[j].lineName == name
  {
    if rows == [] then Err(IndexError)
    else if rows[0].lineName == name then Ok(rows[0].line)
    else
      var r := LineCode(rows[1..], name);
      assert forall j :: 1 <= j < |rows| ==> rows[1..][j - 1] == rows[j];
      r
  }

  /** A name picked from the line dropdown always has a code: the code of its first row. */
  lemma LineCodeOfListedName(rows: seq<StationRow>, name: string)
    requires name in LineNames(rows)
    ensures name in LineNameColumn(rows)
    ensures LineCode(rows, name) == Ok(rows[FirstIndex(LineNameColumn(rows), name)].line)
  {
    var c := LineNameColumn(rows);
    var k := FirstIndex(c, name);
    LineCodeOfFirstRow(rows, name, k);
  }

  /** `LineCode` reads the first row with the name. */
  lemma {:induction false} LineCodeOfFirstRow(rows: seq<StationRow>, name: string, k: nat)
    requires k < |rows| && rows[k].lineName == name
    requires forall j :: 0 <= j < k ==> rows[j].lineName != name
    ensures LineCode(rows, name) == Ok(rows[k].line)
    decreases k
  {
    if k > 0 {
      var tail := rows[1..];
      assert tail[k - 1] == rows[k];
      assert forall j :: 0 <= j < k - 1 ==> tail[j] == rows[j + 1];
      LineCodeOfFirstRow(tail, name, k - 1);
    }
  }

  /** `df[df['Line'] == code]`. */
  function FilterLine(rows: seq<StationRow>, code: string): seq<StationRow> {
    Filter(rows, (r: StationRow) => r.line == code)
  }

  /** The selection keeps exactly the rows of that line code. */
  lemma FilterLineExact(rows: seq<StationRow>, code: string)
    ensures forall r :: r in FilterLine(rows, code) <==> r in rows && r.line == code
  {
  }

  /** The selection of a table split in two is the selection of its first part followed by
      that of its second, so the rows keep their table order. */
  lemma FilterLineOrder(a: seq<StationRow>, b: seq<StationRow>, code: string)
    ensures FilterLine(a + b, code) == FilterLine(a, code) + FilterLine(b, code)
  {
    FilterAppend(a, b, (r: StationRow) => r.line == code);
  }

  /* ---------------- station dropdown ---------------- */

  /** `f"{x[0]} - {x[1]}"` for a row's `Station_name` and `Station`. */
  function Label(r: StationRow): string {
    r.stationName + Sep + r.station
  }

  function LabelsOf(rows: seq<StationRow>): (r: seq<string>)
    ensures |r| == |rows|
    ensures forall j :: 0 <= j < |rows| ==> r[j] == Label(rows[j])
  {
    if rows == [] then [] else LabelsOf(rows[..|rows| - 1]) + [Label(rows[|rows| - 1])]
  }

  /** The order `sort_values('Station_name')` sorts by. */
  predicate ByStationName(a: StationRow, b: StationRow) {
    LexLe(a.stationName, b.stationName)
  }

  lemma ByStationNameIsTotalPreorder()
    ensures IsTotalPreorder(ByStationName)
  {
    forall a: StationRow, b: StationRow ensures ByStationName(a, b) || ByStationName(b, a) {
      LexLeTotal(a.stationName, b.stationName);
    }
    forall a: StationRow, b: StationRow, c: StationRow | ByStationName(a, b) && ByStationName(b, c)
      ensures ByStationName(a, c)
    {
      LexLeTransitive(a.stationName, b.stationName, c.stationName);
    }
  }

  function SortedByStationName(rows: seq<StationRow>): (r: seq<StationRow>)
    ensures SortedBy(r, ByStationName) && multiset(r) == multiset(rows)
  {
    ByStationNameIsTotalPreorder();
    SortBy(rows, ByStationName)
  }

  /** The station dropdown's entries after the placeholder: the rows sorted by station
      name, turned into labels, duplicates removed. */
  function StationLabels(filtered: seq<StationRow>): seq<string> {
    Distinct(LabelsOf(SortedByStationName(filtered)))
  }

  /** Each label is offered once, and exactly the labels of the line's rows are offered. */
  lemma StationLabelsExact(filtered: seq<StationRow>)
    ensures NoDuplicates(StationLabels(filtered))
    ensures forall r :: r in filtered ==> Label(r) in StationLabels(filtered)
    ensures forall s :: s in StationLabels(filtered) ==> exists r :: r in filtered && Label(r) == s
  {
    var sorted := SortedByStationName(filtered);
    var ls := LabelsOf(sorted);
    forall r | r in filtered ensures Label(r) in StationLabels(filtered) {
      assert r in multiset(sorted);
      var k :| 0 <= k < |sorted| && sorted[k] == r;
      assert ls[k] == Label(r);
    }
    forall s | s in StationLabels(filtered) ensures exists r :: r in filtered && Label(r) == s {
      var k :| 0 <= k < |ls| && ls[k] == s;
      assert sorted[k] in multiset(filtered);
    }
  }

  /** The labels come in the order of their first row after sorting, so by station name. */
  lemma StationLabelsByName(filtered: seq<StationRow>)
    ensures var sorted := SortedByStationName(filtered);
      var ls := LabelsOf(sorted);
      forall i, j :: 0 <= i < j < |StationLabels(filtered)| ==>
        && StationLabels(filtered)[i] in ls && StationLabels(filtered)[j] in ls
        && LexLe(sorted[FirstIndex(ls, StationLabels(filtered)[i])].stationName,
                 sorted[FirstIndex(ls, StationLabels(filtered)[j])].stationName)
  {
    var sorted := SortedByStationName(filtered);
    var ls := LabelsOf(sorted);
    var d := StationLabels(filtered);
    DistinctFollowsFirstOccurrence(ls);
    forall i, j | 0 <= i < j < |d|
      ensures LexLe(sorted[FirstIndex(ls, d[i])].stationName, sorted[FirstIndex(ls, d[j])].stationName)
    {
      assert FirstIndex(ls, d[i]) < FirstIndex(ls, d[j]);
      assert ByStationName(sorted[FirstIndex(ls, d[i])], sorted[FirstIndex(ls, d[j])]);
    }
  }

  /** `label.split(' - ')` unpacked into two names: `ValueError` unless there are exactly
      two pieces. */
  function ParseLabel(text: string): Result<(string, string), PyError> {
    var parts := Split(text, Sep);
    if |parts| == 2 then Ok((parts[0], parts[1])) else Err(ValueError)
  }

  /** Whatever the unpack yields joins back to the label, and neither piece holds the
      separator. */
  lemma ParseLabelSound(text: string)
    requires ParseLabel(text).Ok?
    ensures text == ParseLabel(text).value.0 + Sep + ParseLabel(text).value.1
    ensures !Contains(ParseLabel(text).value.0, Sep) && !Contains(ParseLabel(text).value.1, Sep)
  {
    var parts := Split(text, Sep);
    assert parts[1..] == [parts[1]];
  }

  /** The label of a row splits back into its station name and code, provided the name
      neither contains the separator nor ends in " -" (which would overlap the separator
      written after it), and the code does not contain the separator. */
  lemma LabelRoundTrip(name: string, code: string)
    requires !Contains(name, Sep) && !EndsWith(name, " -") && !Contains(code, Sep)
    ensures ParseLabel(name + Sep + code) == Ok((name, code))
  {
    var s := name + Sep + code;
    forall j | 0 <= j < |name| ensures !OccursAt(s, Sep, j) {
      if j + 3 <= |name| {
        assert s[j..j + 3] == name[j..j + 3];
        assert !OccursAt(name, Sep, j);
      } else if j == |name| - 2 {
        assert name[|name| - 2..] == [name[j], name[j + 1]];
        assert s[j] == name[j] && s[j + 1] == name[j + 1];
      } else {
        assert s[j + 1] == ' ';
      }
    }
    SplitAtFirst(name, code, Sep);
    SplitWithoutSeparator(code, Sep);
  }

  /** The overlap is real: the station "x -" with code "y" gives the label "x - - y",
      which unpacks without error into the wrong pair. */
  lemma LabelRoundTripOverlap()
    ensures ParseLabel("x -" + Sep + "y") == Ok(("x", "- y"))
  {
    var s := "x -" + Sep + "y";
    assert s == "x" + Sep + "- y";
    assert s[0] == 'x';
    assert !OccursAt(s, Sep, 0);
    SplitAtFirst("x", "- y", Sep);
    assert !Contains("- y", Sep) by {
      assert "- y"[0..3][0] == '-' != Sep[0];
    }
    SplitWithoutSeparator("- y", Sep);
  }

  /* ---------------- the schedule request ---------------- */

  /** The JSON values a response body can hold. */
  datatype Json =
    | Null
    | Bool(b: bool)
    | Number(n: real)
    | Str(s: string)
    | Array(items: seq<Json>)
    | Object(fields: map<string, Json>)

  /** An HTTP reply: its status and its body, `None` when the body is not valid JSON. */
  datatype HttpResponse = HttpResponse(status: int, body: Option<Json>)

  /** `get_latest_json_data`: the parsed body on status 200 (`response.json()` raises
      `ValueError` on a body that is not JSON), otherwise `None`. */
  function GetLatestJsonData(response: HttpResponse): (r: Result<Option<Json>, PyError>)
    ensures response.status != 200 ==> r == Ok(None)
    ensures response.status == 200 && response.body.Some? ==> r == Ok(Some(response.body.value))
    ensures response.status == 200 && response.body.None? ==> r == Err(ValueError)
  {
    if response.status == 200 then
      match response.body
      case Some(j) => Ok(Some(j))
      case None => Err(ValueError)
    else Ok(None)
  }

  /** Python truthiness of a decoded body (`None` is false). */
  predicate Truthy(data: Option<Json>) {
    match data
    case None => false
    case Some(Null) => false
    case Some(Bool(b)) => b
    case Some(Number(n)) => n != 0.0
    case Some(Str(s)) => s != []
    case Some(Array(items)) => items != []
    case Some(Object(fields)) => fields != map[]
  }

  /** Python's `key in data`: a key test on a dict, an element test on a list, a substring
      test on a string, and `TypeError` on anything else, `None` included. */
  function In(key: string, data: Option<Json>): Result<bool, PyError> {
    match data
    case Some(Object(fields)) => Ok(key in fields)
    case Some(Array(items)) => Ok(Str(key) in items)
    case Some(Str(s)) => Ok(Contains(s, key))
    case _ => Err(TypeError)
  }

  /** Python's `data[key]` with a string key: `KeyError` for a missing dict key,
      `TypeError` for anything that is not a dict. */
  function Get(data: Option<Json>, key: string): Result<Json, PyError> {
    match data
    case Some(Object(fields)) => if key in fields then Ok(fields[key]) else Err(KeyError)
    case _ => Err(TypeError)
  }

  /** The service's URL for a line and station. */
  function ScheduleUrl(lineCode: string, stationCode: string): string {
    "https://rt.data.gov.hk/v1/transport/mtr/getSchedule.php?line=" + lineCode + "&sta=" + stationCode
  }

  /** The key of the station's entry under `data`: `f'{line}-{station}'`. */
  function ScheduleKey(lineCode: string, stationCode: string): string {
    lineCode + "-" + stationCode
  }

  /** What the page shows once the reply is in. */
  datatype View =
    | Schedule(up: Option<Json>, down: Option<Json>)   // the UP and DOWN tables, when present
    | ApiError(message: Json)                           // "Error from API: ..."
    | InvalidData                                       // "Invalid data received from API"

  /** The `UP`/`DOWN` part of the view, as lines 51-62 read the station's entry. */
  function StationTables(station: Json): Result<View, PyError> {
    match In("UP", Some(station))
    case Err(e) => Err(e)
    case Ok(hasUp) =>
      var up := if hasUp then Get(Some(station), "UP") else Ok(Null);
      match up
      case Err(e) => Err(e)
      case Ok(u) =>
        match In("DOWN", Some(station))
        case Err(e) => Err(e)
        case Ok(hasDown) =>
          var down := if hasDown then Get(Some(station), "DOWN") else Ok(Null);
          match down
          case Err(e) => Err(e)
          case Ok(d) => Ok(Schedule(if hasUp then Some(u) else None, if hasDown then Some(d) else None))
  }

  /** Whether the `if` at line 50 holds, evaluated left to right with short-circuit. */
  function HasSchedule(data: Option<Json>, key: string): Result<bool, PyError> {
    if !Truthy(data) then Ok(false)
    else
      match In("data", data)
      case Err(e) => Err(e)
      case Ok(false) => Ok(false)
      case Ok(true) =>
        match Get(data, "data")
        case Err(e) => Err(e)
        case Ok(d) => In(key, Some(d))
  }

  /** Whether the `elif` at line 63 holds. */
  function HasErrorMessage(data: Option<Json>): Result<bool, PyError> {
    match In("error", data)
    case Err(e) => Err(e)
    case Ok(false) => Ok(false)
    case Ok(true) =>
      match Get(data, "error")
      case Err(e) => Err(e)
      case Ok(err) => In("errorMsg", Some(err))
  }

  /** Lines 50-66 as written. */
  function ScheduleViewAsWritten(data: Option<Json>, key: string): Result<View, PyError> {
    match HasSchedule(data, key)
    case Err(e) => Err(e)
    case Ok(true) =>
      (match Get(data, "data")
       case Err(e) => Err(e)
       case Ok(d) =>
         match Get(Some(d), key)
         case Err(e) => Err(e)
         case Ok(station) => StationTables(station))
    case Ok(false) =>
      match HasErrorMessage(data)
      case Err(e) => Err(e)
      case Ok(false) => Ok(InvalidData)
      case Ok(true) =>
        match Get(data, "error")
        case Err(e) => Err(e)
        case Ok(err) =>
          match Get(Some(err), "errorMsg")
          case Err(e) => Err(e)
          case Ok(msg) => Ok(ApiError(msg))
  }

  /** As written, a reply that is not status 200 never reaches a message: the `None` from
      `get_latest_json_data` falls through the first test into `'error' in None`, which
      raises `TypeError`. */
  lemma NonOkReplyCrashes(response: HttpResponse, key: string)
    requires response.status != 200
    ensures GetLatestJsonData(response) == Ok(None)
    ensures ScheduleViewAsWritten(None, key) == Err(TypeError)
  {
  }

  /** Lines 50-66 with the evidently intended guard: the `elif` also asks `data and`, so a
      missing body reports invalid data. */
  function ScheduleView(data: Option<Json>, key: string): Result<View, PyError> {
    if !Truthy(data) then
      Ok(InvalidData)
    else
      ScheduleViewAsWritten(data, key)
  }

  /** With the guard, a failed request shows "Invalid data received from API", and on
      every body the code already handled the guarded version behaves the same. */
  lemma ScheduleViewGuarded(data: Option<Json>, key: string)
    ensures data == None ==> ScheduleView(data, key) == Ok(InvalidData)
    ensures Truthy(data) ==> ScheduleView(data, key) == ScheduleViewAsWritten(data, key)
    ensures ScheduleViewAsWritten(data, key).Ok? ==> ScheduleView(data, key) == ScheduleViewAsWritten(data, key)
  {
    if !Truthy(data) && ScheduleViewAsWritten(data, key).Ok? {
      match data
      case None =>
      case Some(j) =>
        match j
        case Object(fields) =>
          assert "error" !in fields;
        case Array(items) =>
          assert items == [];
        case Str(s) =>
          assert s == [];
          assert !Contains(s, "error");
        case _ =>
    }
  }

  /** The happy path: a dict with `data` holding the station's key shows that entry's UP
      and DOWN tables, each exactly when the entry has it. */
  lemma ScheduleShown(fields: map<string, Json>, key: string, station: map<string, Json>)
    requires "data" in fields && fields["data"].Object? && key in fields["data"].fields
    requires fields["data"].fields[key] == Object(station)
    ensures ScheduleView(Some(Object(fields)), key) ==
      Ok(Schedule(if "UP" in station then Some(station["UP"]) else None,
                  if "DOWN" in station then Some(station["DOWN"]) else None))
  {
    assert fields != map[] by {
      assert "data" in fields;
    }
  }

  /* ---------------- the page ---------------- */

  /** What one run of the page ends with. */
  datatype Screen =
    | ChooseLine(lineOptions: seq<string>)                            // the line box shows 'Select...'
    | ChooseStation(lineCode: string, stationOptions: seq<string>)    // the station box shows 'Select...'
    | Shown(lineCode: string, stationCode: string, view: View)
    | Crashed(error: PyError)

  /** A run: the URL requested, if any, and the screen. */
  datatype Run = Run(requested: Option<string>, screen: Screen)

  /** The options of the line dropdown. */
  function LineOptions(rows: seq<StationRow>): seq<string> {
    [Placeholder] + LineNames(rows)
  }

  /** The whole script for one pair of dropdown values; `fetch` stands for `requests.get`
      and `view` for lines 50-66. */
  function PageRun(rows: seq<StationRow>, selectedLine: string, selectedStation: string,
                   fetch: string -> HttpResponse, view: (Option<Json>, string) -> Result<View, PyError>): Run {
    if selectedLine == Placeholder then Run(None, ChooseLine(LineOptions(rows)))
    else
      match LineCode(rows, selectedLine)
      case Err(e) => Run(None, Crashed(e))
      case Ok(code) =>
        var options := StationLabels(FilterLine(rows, code));
        if selectedStation == Placeholder then Run(None, ChooseStation(code, options))
        else
          match ParseLabel(selectedStation)
          case Err(e) => Run(None, Crashed(e))
          case Ok((_, stationCode)) =>
            var url := ScheduleUrl(code, stationCode);
            match GetLatestJsonData(fetch(url))
            case Err(e) => Run(Some(url), Crashed(e))
            case Ok(data) =>
              match view(data, ScheduleKey(code, stationCode))
              case Err(e) => Run(Some(url), Crashed(e))
              case Ok(v) => Run(Some(url), Shown(code, stationCode, v))
  }

  /** The page with the guarded view. */
  function NextTrainPage(rows: seq<StationRow>, selectedLine: string, selectedStation: string,
                         fetch: string -> HttpResponse): Run {
    PageRun(rows, selectedLine, selectedStation, fetch, ScheduleView)
  }

  /** While either dropdown shows 'Select...', nothing is looked up and nothing is
      requested; once both are chosen from their options, the request goes to the URL of
      the line's code and the label's station code. */
  lemma NoRequestUntilChosen(rows: seq<StationRow>, selectedLine: string, selectedStation: string,
                             fetch: string -> HttpResponse)
    ensures selectedLine == Placeholder ==>
      NextTrainPage(rows, selectedLine, selectedStation, fetch) == Run(None, ChooseLine(LineOptions(rows)))
    ensures selectedLine != Placeholder && selectedStation == Placeholder ==>
      NextTrainPage(rows, selectedLine, selectedStation, fetch).requested == None
    ensures (selectedLine != Placeholder && selectedLine in LineNames(rows) && selectedStation != Placeholder &&
             ParseLabel(selectedStation).Ok?) ==>
      (selectedLine in LineNameColumn(rows) &&
       NextTrainPage(rows, selectedLine, selectedStation, fetch).requested ==
         Some(ScheduleUrl(rows[FirstIndex(LineNameColumn(rows), selectedLine)].line, ParseLabel(selectedStation).value.1)))
  {
    if selectedLine != Placeholder && selectedLine in LineNames(rows) && selectedStation != Placeholder &&
       ParseLabel(selectedStation).Ok? {
      LineCodeOfListedName(rows, selectedLine);
      var code := rows[FirstIndex(LineNameColumn(rows), selectedLine)].line;
      PageRequest(rows, selectedLine, selectedStation, fetch, code, ParseLabel(selectedStation).value.1);
    }
  }

  /** Once the line has a code and the label parses, the page requests that pair's URL. */
  lemma PageRequest(rows: seq<StationRow>, selectedLine: string, selectedStation: string,
                    fetch: string -> HttpResponse, code: string, stationCode: string)
    requires selectedLine != Placeholder && selectedStation != Placeholder
    requires LineCode(rows, selectedLine) == Ok(code)
    requires ParseLabel(selectedStation).Ok? && ParseLabel(selectedStation).value.1 == stationCode
    ensures NextTrainPage(rows, selectedLine, selectedStation, fetch).requested == Some(ScheduleUrl(code, stationCode))
  {
  }

  /** The page as written. */
  function NextTrainPageAsWritten(rows: seq<StationRow>, selectedLine: string, selectedStation: string,
                                  fetch: string -> HttpResponse): Run {
    PageRun(rows, selectedLine, selectedStation, fetch, ScheduleViewAsWritten)
  }

  /** On a failed request the page as written ends in `TypeError`, while the guarded page
      shows "Invalid data received from API". */
  lemma FailedRequestOnPage(rows: seq<StationRow>, selectedLine: string, selectedStation: string,
                            fetch: string -> HttpResponse)
    requires selectedLine != Placeholder && LineCode(rows, selectedLine).Ok?
    requires selectedStation != Placeholder && ParseLabel(selectedStation).Ok?
    requires fetch(ScheduleUrl(LineCode(rows, selectedLine).value, ParseLabel(selectedStation).value.1)).status != 200
    ensures NextTrainPageAsWritten(rows, selectedLine, selectedStation, fetch).screen == Crashed(TypeError)
    ensures NextTrainPage(rows, selectedLine, selectedStation, fetch).screen.Shown?
    ensures NextTrainPage(rows, selectedLine, selectedStation, fetch).screen.view == InvalidData
  {
  }
}
