/** The row logic of the two sheet reads: the list of vacancies (column B of "Проекты") and
    the site records for one vacancy (columns A to J). The fetched rows are an input: a
    `Fetch` of the `values` array, where `Threw` is a failed request. A row is the list
    of its cell texts; the API leaves trailing empty cells out, so a row may be shorter
    than the header row. */
module SheetRows {
  import opened Common
  import opened JsStrings
  import opened Seqs
  import opened Geo

  type Row = seq<string>

  /** `row[i]`, undefined past the end of the row. */
  function Cell(row: Row, i: nat): Option<string> {
    if i < |row| then Some(row[i]) else None
  }

  /** `row[i] || ''`. */
  function CellOrEmpty(row: Row, i: nat): string {
    if i < |row| then row[i] else ""
  }

  // ---------------------------------------------------------------- getVacancies

  /** What getVacancies returns when the request fails. */
  const FallbackVacancies: seq<string> := ["Кассир", "Уборщик", "Повар", "Менеджер"]

  /** `row[0]` is a vacancy name: present and not blank (`vacancy && vacancy.trim() !== ''`). */
  predicate HasListedVacancy(row: Row) {
    |row| > 0 && Trim(row[0]) != ""
  }

  /** The first cell of `row` lists the vacancy `v`. */
  predicate ListsVacancy(row: Row, v: string) {
    HasListedVacancy(row) && row[0] == v
  }

  /** `rows.map(row => row[0]).filter(...)`: the first cells that are not blank, in row order. */
  function ListedCells(rows: seq<Row>): (cells: seq<string>)
    ensures forall k :: 0 <= k < |cells| ==> Trim(cells[k]) != ""
  {
    if |rows| == 0 then []
    else (if HasListedVacancy(rows[0]) then [rows[0][0]] else []) + ListedCells(rows[1..])
  }

  function Identity(s: string): string { s }

  /** getVacancies: the header row skipped, blank cells dropped, then `[...new Set(...)]`. */
  function Vacancies(fetched: Fetch<seq<Row>>): seq<string> {
    match fetched
    case Threw => FallbackVacancies
    case Returned(None) => []
    case Returned(Some(rows)) => DedupBy(ListedCells(if |rows| == 0 then [] else rows[1..]), Identity)
  }

  lemma {:induction false} ListedCellsMembers(rows: seq<Row>, v: string)
    ensures v in ListedCells(rows) <==> exists k :: 0 <= k < |rows| && ListsVacancy(rows[k], v)
  {
    if |rows| > 0 {
      var tail := rows[1..];
      ListedCellsMembers(tail, v);
      assert ListedCells(rows) == (if HasListedVacancy(rows[0]) then [rows[0][0]] else []) + ListedCells(tail);
      if v in ListedCells(tail) {
        var k :| 0 <= k < |tail| && ListsVacancy(tail[k], v);
        assert rows[k + 1] == tail[k];
      }
      if exists k :: 0 <= k < |rows| && ListsVacancy(rows[k], v) {
        var k :| 0 <= k < |rows| && ListsVacancy(rows[k], v);
        if k > 0 {
          assert tail[k - 1] == rows[k];
        }
      }
    }
  }

  lemma KeySetOfIdentity(s: seq<string>)
    ensures KeySet(s, Identity) == set x | x in s
  {
    forall x | x in s ensures x in KeySet(s, Identity) {
      var i :| 0 <= i < |s| && s[i] == x;
      assert Identity(s[i]) == x;
    }
  }

  lemma DedupIdentityMembers(s: seq<string>, v: string)
    ensures v in DedupBy(s, Identity) <==> v in s
  {
    DedupKeySet(s, Identity);
    KeySetOfIdentity(s);
    KeySetOfIdentity(DedupBy(s, Identity));
  }

  /** The vacancy list read from the sheet names every vacancy that appears in the first
      cell of a data row, each once, and nothing else. */
  lemma VacanciesFromRows(rows: seq<Row>)
    requires |rows| >= 1
    ensures var vs := Vacancies(Returned(Some(rows)));
            (forall i, j :: 0 <= i < j < |vs| ==> vs[i] != vs[j])
            && (forall v :: v in vs <==> exists k :: 1 <= k < |rows| && ListsVacancy(rows[k], v))
  {
    var tail := rows[1..];
    var cells := ListedCells(tail);
    var vs := DedupBy(cells, Identity);
    DedupKeysDistinct(cells, Identity);
    forall v ensures v in vs <==> exists k :: 1 <= k < |rows| && ListsVacancy(rows[k], v) {
      DedupIdentityMembers(cells, v);
      ListedCellsMembers(tail, v);
      if exists k :: 1 <= k < |rows| && ListsVacancy(rows[k], v) {
        var k :| 1 <= k < |rows| && ListsVacancy(rows[k], v);
        assert tail[k - 1] == rows[k];
      }
      if v in cells {
        var k :| 0 <= k < |tail| && ListsVacancy(tail[k], v);
        assert rows[k + 1] == tail[k];
      }
    }
  }

  /** The list keeps the first occurrence of each vacancy, in sheet order. */
  lemma VacanciesKeepFirstOccurrences(rows: seq<Row>)
    requires |rows| >= 1
    ensures Vacancies(Returned(Some(rows)))
            == FirstOccurrences(ListedCells(rows[1..]), Identity, |ListedCells(rows[1..])|)
  {
    DedupIsFirstOccurrences(ListedCells(rows[1..]), Identity);
  }

  /** A failed read gives the four placeholder vacancies; a missing `values` gives none. */
  lemma VacanciesFallback()
    ensures Vacancies(Threw) == ["Кассир", "Уборщик", "Повар", "Менеджер"]
    ensures |Vacancies(Threw)| == 4
    ensures Vacancies(Returned(None)) == []
  {
  }

  // ---------------------------------------------------------------- getDataForVacancy

  /** The key of the coordinates column among the lower-cased headers. */
  const CoordinatesKey := "координаты"

  /** The text a header must contain, lower-cased, to be the vacancy column. */
  const VacancyMarker := "ваканс"

  /** `headers.findIndex(h => h.toLowerCase().includes('ваканс'))`, with None for -1. */
  function VacancyColumn(headers: Row, lower: string -> string): (r: Option<nat>)
    ensures r.Some? ==> r.value < |headers| && Contains(lower(headers[r.value]), VacancyMarker)
  {
    if |headers| == 0 then None
    else if Contains(lower(headers[0]), VacancyMarker) then Some(0)
    else match VacancyColumn(headers[1..], lower)
      case None => None
      case Some(i) => Some(i + 1)
  }

  /** findIndex finds the first vacancy header, and finds none only when there is none. */
  lemma {:induction false} VacancyColumnIsFirst(headers: Row, lower: string -> string)
    ensures VacancyColumn(headers, lower).Some? ==>
              forall k :: 0 <= k < VacancyColumn(headers, lower).value ==> !Contains(lower(headers[k]), VacancyMarker)
    ensures VacancyColumn(headers, lower).None? <==>
              forall k :: 0 <= k < |headers| ==> !Contains(lower(headers[k]), VacancyMarker)
  {
    if |headers| > 0 {
      VacancyColumnIsFirst(headers[1..], lower);
      forall k | 1 <= k < |headers| ensures headers[k] == headers[1..][k - 1] { }
    }
  }

  /** The record of one row after the `forEach` over the first `n` headers: each lower-cased
      header bound to its cell or `''`, a later header overwriting an earlier one. */
  function RecordFields(headers: Row, row: Row, lower: string -> string, n: nat): map<string, string>
    requires n <= |headers|
  {
    if n == 0 then map[] else RecordFields(headers, row, lower, n - 1)[lower(headers[n - 1]) := CellOrEmpty(row, n - 1)]
  }

  /** The record has a key for each header and no other. */
  lemma {:induction false} RecordKeys(headers: Row, row: Row, lower: string -> string, n: nat)
    requires n <= |headers|
    ensures forall i :: 0 <= i < n ==> lower(headers[i]) in RecordFields(headers, row, lower, n)
    ensures forall key :: key in RecordFields(headers, row, lower, n) ==>
              exists i :: 0 <= i < n && lower(headers[i]) == key
  {
    if n > 0 {
      RecordKeys(headers, row, lower, n - 1);
      var m := RecordFields(headers, row, lower, n);
      assert m == RecordFields(headers, row, lower, n - 1)[lower(headers[n - 1]) := CellOrEmpty(row, n - 1)];
      forall key | key in m ensures exists i :: 0 <= i < n && lower(headers[i]) == key {
        if key != lower(headers[n - 1]) {
          assert key in RecordFields(headers, row, lower, n - 1);
        }
      }
    }
  }

  /** The value under a header's key is the cell of the last header with that key: a
      later column overwrites an earlier one whose header lower-cases the same. */
  lemma {:induction false} RecordLastHeaderWins(headers: Row, row: Row, lower: string -> string, n: nat, i: nat)
    requires i < n <= |headers|
    requires forall j :: i < j < n ==> lower(headers[j]) != lower(headers[i])
    ensures lower(headers[i]) in RecordFields(headers, row, lower, n)
    ensures RecordFields(headers, row, lower, n)[lower(headers[i])] == CellOrEmpty(row, i)
  {
    if i < n - 1 {
      RecordLastHeaderWins(headers, row, lower, n - 1, i);
    }
  }

  /** `headers.forEach((header, index) => { shop[header.toLowerCase()] = row[index] || ''; })`. */
  method BuildRecord(headers: Row, row: Row, lower: string -> string) returns (fields: map<string, string>)
    ensures fields == RecordFields(headers, row, lower, |headers|)
  {
    fields := map[];
    for index := 0 to |headers|
      invariant fields == RecordFields(headers, row, lower, index)
    {
      fields := fields[lower(headers[index]) := CellOrEmpty(row, index)];
    }
  }

  /** The `coordinates` object of a record: "lat, lon" from a non-empty coordinates cell
      split on commas (each piece trimmed and given to parseFloat), and (0, 0) when the cell
      is missing or empty or has no comma. */
  function ShopCoordinates(fields: map<string, string>, parseFloat: string -> Float): (c: Coord)
    ensures CoordinatesKey !in fields || fields[CoordinatesKey] == "" ==> c == Zero
  {
    if CoordinatesKey in fields && fields[CoordinatesKey] != "" then
      var coords := Split(fields[CoordinatesKey], ',');
      if |coords| >= 2 then Coord(parseFloat(Trim(coords[0])), parseFloat(Trim(coords[1]))) else Zero
    else Zero
  }

  /** A coordinates cell falls back to (0, 0) exactly when it has no comma; "lat,lon" of two
      trimmed comma-free texts gives latitude = the first and longitude = the second. */
  lemma ShopCoordinatesSpec(fields: map<string, string>, parseFloat: string -> Float)
    requires CoordinatesKey in fields && fields[CoordinatesKey] != ""
    ensures ',' !in fields[CoordinatesKey] ==> ShopCoordinates(fields, parseFloat) == Zero
    ensures ',' in fields[CoordinatesKey] ==>
              |Split(fields[CoordinatesKey], ',')| >= 2 &&
              var coords := Split(fields[CoordinatesKey], ',');
              ShopCoordinates(fields, parseFloat) == Coord(parseFloat(Trim(coords[0])), parseFloat(Trim(coords[1])))
  {
    SplitInTwoIff(fields[CoordinatesKey], ',');
  }

  lemma CoordinatesCellRoundTrip(fields: map<string, string>, lat: string, lon: string, parseFloat: string -> Float)
    requires IsTrimmed(lat) && IsTrimmed(lon) && ',' !in lat && ',' !in lon
    requires CoordinatesKey in fields && fields[CoordinatesKey] == lat + "," + lon
    ensures ShopCoordinates(fields, parseFloat) == Coord(parseFloat(lat), parseFloat(lon))
  {
    assert lat + "," + lon == lat + [','] + lon;
    SplitConcat(lat, lon, ',');
    SplitWithoutSeparator(lat, ',');
    SplitWithoutSeparator(lon, ',');
    TrimOfTrimmed(lat);
    TrimOfTrimmed(lon);
  }

  /** `row[vacancyIndex] && row[vacancyIndex].toLowerCase() === vacancyName.toLowerCase()`. */
  function MatchesVacancy(column: nat, name: string, lower: string -> string): Row -> bool {
    (row: Row) => column < |row| && row[column] != "" && lower(row[column]) == lower(name)
  }

  /** The record of one matching row. */
  function ShopOf(headers: Row, row: Row, lower: string -> string, parseFloat: string -> Float): Shop {
    var fields := RecordFields(headers, row, lower, |headers|);
    Shop(fields, ShopCoordinates(fields, parseFloat))
  }

  /** The data rows of a read whose vacancy column is `column`, that match the vacancy. */
  function MatchingRows(rows: seq<Row>, column: nat, name: string, lower: string -> string): seq<Row>
    requires |rows| >= 1
  {
    Filter(rows[1..], MatchesVacancy(column, name, lower))
  }

  /** getDataForVacancy as a value. */
  function DataForVacancy(fetched: Fetch<seq<Row>>, name: string, lower: string -> string,
                          parseFloat: string -> Float): seq<Shop>
  {
    if fetched.Threw? || fetched.result.None? || |fetched.result.value| < 2 then []
    else
      var rows := fetched.result.value;
      match VacancyColumn(rows[0], lower)
      case None => []
      case Some(column) =>
        var matching := MatchingRows(rows, column, name, lower);
        seq(|matching|, j requires 0 <= j < |matching| => ShopOf(rows[0], matching[j], lower, parseFloat))
  }

  /** No data: a failed read, a missing or header-only sheet, or no vacancy column. */
  lemma NoDataCases(fetched: Fetch<seq<Row>>, name: string, lower: string -> string, parseFloat: string -> Float)
    ensures fetched.Threw? ==> DataForVacancy(fetched, name, lower, parseFloat) == []
    ensures fetched.Returned? && (fetched.result.None? || |fetched.result.value| < 2)
            ==> DataForVacancy(fetched, name, lower, parseFloat) == []
    ensures fetched.Returned? && fetched.result.Some? && |fetched.result.value| >= 1
            && (forall k :: 0 <= k < |fetched.result.value[0]| ==> !Contains(lower(fetched.result.value[0][k]), VacancyMarker))
            ==> DataForVacancy(fetched, name, lower, parseFloat) == []
  {
    if fetched.Returned? && fetched.result.Some? && |fetched.result.value| >= 1 {
      VacancyColumnIsFirst(fetched.result.value[0], lower);
    }
  }

  /** With a vacancy column, the records are those of exactly the data rows whose vacancy
      cell is non-empty and lower-cases to the lower-cased name, in sheet order, and each
      maps every lower-cased header to its cell. */
  lemma MatchingRowsSpec(rows: seq<Row>, column: nat, name: string, lower: string -> string, row: Row)
    requires |rows| >= 1
    ensures row in MatchingRows(rows, column, name, lower) <==>
              row in rows[1..] && column < |row| && row[column] != "" && lower(row[column]) == lower(name)
    ensures IsSubsequence(MatchingRows(rows, column, name, lower), rows[1..])
  {
    FilterMembers(rows[1..], MatchesVacancy(column, name, lower), row);
    FilterSubsequence(rows[1..], MatchesVacancy(column, name, lower));
  }

  /** getDataForVacancy: the matching rows, each turned into a record by the `forEach`
      over the headers and given its coordinates. */
  method GetDataForVacancy(fetched: Fetch<seq<Row>>, name: string, lower: string -> string,
                           parseFloat: string -> Float) returns (shops: seq<Shop>)
    ensures shops == DataForVacancy(fetched, name, lower, parseFloat)
  {
    if fetched.Threw? || fetched.result.None? {
      return [];
    }
    var rows := fetched.result.value;
    if |rows| < 2 {
      return [];
    }
    var headers := rows[0];
    var column := VacancyColumn(headers, lower);
    if column.None? {
      return [];
    }
    var matching := MatchingRows(rows, column.value, name, lower);
    shops := [];
    for j := 0 to |matching|
      invariant |shops| == j
      invariant forall k :: 0 <= k < j ==> shops[k] == ShopOf(headers, matching[k], lower, parseFloat)
    {
      var fields := BuildRecord(headers, matching[j], lower);
      shops := shops + [Shop(fields, ShopCoordinates(fields, parseFloat))];
    }
  }
}
