/**
  seed-geocode-cache.ts and the reader of what it seeds: the quote-aware CSV splitter, the
  batched insert that skips existing keys, and the city/state lookup.
 */
module GeocodeSeed {
  import opened Wrappers
  import opened Text

  // ---- splitting one line ----

  /** The fields still to come, given the field begun so far. */
  function FieldsFrom(line: string, current: string, inQuotes: bool): (fields: seq<string>)
    ensures fields != []
    decreases |line|
  {
    if line == [] then [current]
    else if line[0] == '"' then FieldsFrom(line[1..], current, !inQuotes)
    else if line[0] == ',' && !inQuotes then [current] + FieldsFrom(line[1..], "", false)
    else FieldsFrom(line[1..], current + [line[0]], inQuotes)
  }

  method SplitCsvLine(line: string) returns (fields: seq<string>)
    ensures fields == FieldsFrom(line, "", false)
  {
    fields := [];
    var current := "";
    var inQuotes := false;
    for i := 0 to |line|
      invariant fields + FieldsFrom(line[i..], current, inQuotes) == FieldsFrom(line, "", false)
    {
      assert line[i..][0] == line[i] && line[i..][1..] == line[i + 1..];
      if line[i] == '"' {
        inQuotes := !inQuotes;
      } else if line[i] == ',' && !inQuotes {
        fields := fields + [current];
        current := "";
      } else {
        current := current + [line[i]];
      }
    }
    fields := fields + [current];
  }

  function WithoutQuotes(line: string): string {
    if line == [] then [] else (if line[0] == '"' then [] else [line[0]]) + WithoutQuotes(line[1..])
  }

  /** Commas outside quotes, for a line read from inside or outside them. */
  function UnquotedCommas(line: string, inQuotes: bool): nat {
    if line == [] then 0
    else if line[0] == '"' then UnquotedCommas(line[1..], !inQuotes)
    else (if line[0] == ',' && !inQuotes then 1 else 0) + UnquotedCommas(line[1..], inQuotes)
  }

  /** Nothing but quotes is lost: joining the fields gives the line with its quotes deleted. */
  lemma {:induction false} SplitKeepsText(line: string, current: string, inQuotes: bool)
    ensures Join(FieldsFrom(line, current, inQuotes), ",") == current + WithoutQuotes(line)
    decreases |line|
  {
    hide Join, FieldsFrom, WithoutQuotes;
    if line == [] {
      JoinOfOne(current);
    } else {
      var rest := WithoutQuotes(line[1..]);
      OneStep(line, current, inQuotes);
      if line[0] == '"' {
        SplitKeepsText(line[1..], current, !inQuotes);
      } else if line[0] == ',' && !inQuotes {
        SplitKeepsText(line[1..], "", false);
        JoinOfCons(current, FieldsFrom(line[1..], "", false));
        Associates(current, ",", rest);
      } else {
        SplitKeepsText(line[1..], current + [line[0]], inQuotes);
        Associates(current, [line[0]], rest);
      }
    }
  }

  lemma OneStep(line: string, current: string, inQuotes: bool)
    requires line != ""
    ensures FieldsFrom(line, current, inQuotes) ==
            if line[0] == '"' then FieldsFrom(line[1..], current, !inQuotes)
            else if line[0] == ',' && !inQuotes then [current] + FieldsFrom(line[1..], "", false)
            else FieldsFrom(line[1..], current + [line[0]], inQuotes)
    ensures WithoutQuotes(line) ==
            if line[0] == '"' then WithoutQuotes(line[1..]) else [line[0]] + WithoutQuotes(line[1..])
  {
  }

  lemma Associates(a: string, b: string, c: string)
    ensures a + b + c == a + (b + c)
    ensures [] + c == c
  {
  }

  lemma JoinOfOne(s: string)
    ensures Join(FieldsFrom("", s, true), ",") == s + WithoutQuotes("")
    ensures Join(FieldsFrom("", s, false), ",") == s + WithoutQuotes("")
  {
  }

  lemma JoinOfCons(first: string, rest: seq<string>)
    requires rest != []
    ensures Join([first] + rest, ",") == first + "," + Join(rest, ",")
  {
    assert ([first] + rest)[1..] == rest;
  }

  /** Fields end exactly at the unquoted commas. */
  lemma {:induction false} SplitCountsCommas(line: string, current: string, inQuotes: bool)
    ensures |FieldsFrom(line, current, inQuotes)| == 1 + UnquotedCommas(line, inQuotes)
    decreases |line|
  {
    if line == [] {
    } else if line[0] == '"' {
      SplitCountsCommas(line[1..], current, !inQuotes);
    } else if line[0] == ',' && !inQuotes {
      SplitCountsCommas(line[1..], "", false);
    } else {
      SplitCountsCommas(line[1..], current + [line[0]], inQuotes);
    }
  }

  /** A field written plainly or, if it holds a comma, between quotes. */
  predicate Encodes(text: string, field: string) {
    Free(field, '"') && (text == "\"" + field + "\"" || (text == field && Free(field, ',')))
  }

  lemma {:induction false} ReadQuoted(field: string, rest: string, current: string)
    requires Free(field, '"')
    ensures FieldsFrom(field + "\"" + rest, current, true) == FieldsFrom(rest, current + field, false)
    decreases |field|
  {
    var line := field + "\"" + rest;
    if field == [] {
      assert line[1..] == rest && current + field == current;
    } else {
      assert line[1..] == field[1..] + "\"" + rest;
      assert current + field == current + [field[0]] + field[1..];
      ReadQuoted(field[1..], rest, current + [field[0]]);
    }
  }

  lemma {:induction false} ReadPlain(field: string, rest: string, current: string)
    requires Free(field, '"') && Free(field, ',')
    ensures FieldsFrom(field + rest, current, false) == FieldsFrom(rest, current + field, false)
    decreases |field|
  {
    if field == [] {
      assert field + rest == rest && current + field == current;
    } else {
      assert (field + rest)[1..] == field[1..] + rest;
      assert current + field == current + [field[0]] + field[1..];
      ReadPlain(field[1..], rest, current + [field[0]]);
    }
  }

  lemma ReadEncoded(text: string, field: string, rest: string)
    requires Encodes(text, field)
    ensures FieldsFrom(text + rest, "", false) == FieldsFrom(rest, field, false)
  {
    assert "" + field == field;
    if text == "\"" + field + "\"" {
      assert (text + rest)[1..] == field + "\"" + rest;
      ReadQuoted(field, rest, "");
    } else {
      ReadPlain(field, rest, "");
    }
  }

  /** Splitting undoes writing, for any list of quote-free fields, quoted or plain. */
  lemma {:induction false} SplitUndoesQuoting(texts: seq<string>, fields: seq<string>)
    requires |texts| == |fields| > 0
    requires forall i :: 0 <= i < |fields| ==> Encodes(texts[i], fields[i])
    ensures FieldsFrom(Join(texts, ","), "", false) == fields
    decreases |texts|
  {
    if |texts| == 1 {
      assert texts[0] + "" == texts[0];
      ReadEncoded(texts[0], fields[0], "");
    } else {
      var rest := Join(texts[1..], ",");
      assert Join(texts, ",") == texts[0] + ("," + rest);
      ReadEncoded(texts[0], fields[0], "," + rest);
      assert ("," + rest)[1..] == rest;
      SplitUndoesQuoting(texts[1..], fields[1..]);
      assert fields == [fields[0]] + fields[1..];
    }
  }

  // ---- rows and keys ----

  datatype Place = Place(city: string, state: string, lat: string, lng: string)

  datatype Row = Row(lookupKey: string, lat: string, lng: string)

  datatype CsvError = NoHeader | UnexpectedHeader | MalformedRow(number: nat)

  /** toUpperCase on the letters a to z. */
  function UpperChar(c: char): char {
    if 'a' <= c <= 'z' then c - 'a' + 'A' else c
  }

  function Upper(s: string): (r: string)
    ensures |r| == |s| && forall i :: 0 <= i < |s| ==> r[i] == UpperChar(s[i])
  {
    if s == [] then [] else [UpperChar(s[0])] + Upper(s[1..])
  }

  function Norm(s: string): string {
    Upper(Trim(s))
  }

  function BuildLookupKey(city: string, state: string): string {
    Norm(city) + "|" + Norm(state)
  }

  function RowOf(p: Place): Row {
    Row(BuildLookupKey(p.city, p.state), p.lat, p.lng)
  }

  function RowsOf(places: seq<Place>): seq<Row> {
    seq(|places|, i requires 0 <= i < |places| => RowOf(places[i]))
  }

  function NonBlank(lines: seq<string>): seq<string> {
    if lines == [] then [] else
      (if Trim(lines[0]) == "" then [] else [lines[0]]) + NonBlank(lines[1..])
  }

  /** Data lines, numbered as error messages number them: the header is line 1. */
  function PlacesOf(lines: seq<string>, number: nat): Result<seq<Place>, CsvError>
    decreases |lines|
  {
    if lines == [] then Ok([]) else
      var fields := FieldsFrom(lines[0], "", false);
      if |fields| < 4 then Err(MalformedRow(number))
      else
        match PlacesOf(lines[1..], number + 1)
        case Err(e) => Err(e)
        case Ok(rest) => Ok([Place(fields[0], fields[1], fields[2], fields[3])] + rest)
  }

  function ParseCsv(raw: string): Result<seq<Place>, CsvError> {
    var lines := NonBlank(Split(raw, '\n'));
    if lines == [] then Err(NoHeader)
    else if Trim(lines[0]) != "city,state,lat,lng" then Err(UnexpectedHeader)
    else PlacesOf(lines[1..], 2)
  }

  // ---- the cache ----

  type Cache = map<string, Row>

  /** createMany with skipDuplicates: a key already there, or earlier in the batch, wins. */
  function Insert(cache: Cache, row: Row): Cache {
    if row.lookupKey in cache then cache else cache[row.lookupKey := row]
  }

  function InsertAll(cache: Cache, rows: seq<Row>): Cache
    decreases |rows|
  {
    if rows == [] then cache else InsertAll(Insert(cache, rows[0]), rows[1..])
  }

  lemma {:induction false} InsertAllInParts(cache: Cache, a: seq<Row>, b: seq<Row>)
    ensures InsertAll(cache, a + b) == InsertAll(InsertAll(cache, a), b)
    decreases |a|
  {
    if a == [] {
      assert a + b == b;
    } else {
      assert (a + b)[1..] == a[1..] + b;
      InsertAllInParts(Insert(cache, a[0]), a[1..], b);
    }
  }

  class GeocodeCache {
    var rows: Cache

    constructor ()
      ensures rows == map[]
    {
      rows := map[];
    }

    method CreateMany(batch: seq<Row>) returns (count: nat)
      modifies this
      ensures rows == InsertAll(old(rows), batch)
      ensures count == |rows| - |old(rows)|
    {
      count := 0;
      for i := 0 to |batch|
        invariant InsertAll(rows, batch[i..]) == InsertAll(old(rows), batch)
        invariant count == |rows| - |old(rows)|
      {
        assert batch[i..][0] == batch[i] && batch[i..][1..] == batch[i + 1..];
        if batch[i].lookupKey !in rows {
          rows := rows[batch[i].lookupKey := batch[i]];
          count := count + 1;
        }
      }
    }

    /** The batches, of any size, leave what one insertion of all rows would. */
    method Seed(all: seq<Row>, batchSize: nat) returns (inserted: nat)
      requires batchSize > 0
      modifies this
      ensures rows == InsertAll(old(rows), all)
      ensures inserted == |rows| - |old(rows)|
    {
      inserted := 0;
      var i := 0;
      while i < |all|
        invariant 0 <= i
        invariant i <= |all| ==> InsertAll(rows, all[i..]) == InsertAll(old(rows), all)
        invariant i > |all| ==> rows == InsertAll(old(rows), all)
        invariant inserted == |rows| - |old(rows)|
        decreases |all| - i
      {
        var end := if i + batchSize <= |all| then i + batchSize else |all|;
        var batch := all[i..end];
        InsertAllInParts(rows, batch, all[end..]);
        assert all[i..] == batch + all[end..];
        var count := CreateMany(batch);
        inserted := inserted + count;
        i := i + batchSize;
      }
    }

    /** The whole seeding run: a file that does not parse changes nothing. */
    method SeedFromCsv(raw: string, batchSize: nat) returns (r: Result<nat, CsvError>)
      requires batchSize > 0
      modifies this
      ensures r.Ok? <==> ParseCsv(raw).Ok?
      ensures r.Err? ==> rows == old(rows) && r.error == ParseCsv(raw).error
      ensures r.Ok? ==> rows == InsertAll(old(rows), RowsOf(ParseCsv(raw).value)) && r.value == |rows| - |old(rows)|
      ensures r.Ok? && old(rows) == map[] ==> SeededFrom(raw)
    {
      var parsed := ParseCsv(raw);
      if parsed.Err? {
        return Err(parsed.error);
      }
      var inserted := Seed(RowsOf(parsed.value), batchSize);
      return Ok(inserted);
    }

    /** The cache holds what seeding an empty one from this text leaves. */
    ghost predicate SeededFrom(raw: string)
      reads this
    {
      ParseCsv(raw).Ok? && rows == InsertAll(map[], RowsOf(ParseCsv(raw).value))
    }

    /** Resolving a query on a seeded cache scans the CSV it came from, if the query's key is unambiguous. */
    method Resolve(city: string, state: string) returns (found: Option<Row>)
      ensures found.Some? <==> BuildLookupKey(city, state) in rows
      ensures found.Some? ==> found.value == rows[BuildLookupKey(city, state)]
      ensures forall raw :: SeededFrom(raw) && UnambiguousInCsv(city, state) ==>
                found == Scan(ParseCsv(raw).value, city, state)
    {
      hide UnambiguousInCsv, BuildLookupKey;
      var lookupKey := BuildLookupKey(city, state);
      found := if lookupKey in rows then Some(rows[lookupKey]) else None;
      assert found == Lookup(rows, city, state);
      forall raw | SeededFrom(raw) && UnambiguousInCsv(city, state)
        ensures found == Scan(ParseCsv(raw).value, city, state)
      {
        LookupIsScan(raw, city, state);
      }
    }
  }

  function Lookup(cache: Cache, city: string, state: string): Option<Row> {
    var key := BuildLookupKey(city, state);
    if key in cache then Some(cache[key]) else None
  }

  /** The plain meaning: the first place whose normalised city and state both match. */
  function Scan(places: seq<Place>, city: string, state: string): Option<Row> {
    if places == [] then None
    else if Norm(places[0].city) == Norm(city) && Norm(places[0].state) == Norm(state) then Some(RowOf(places[0]))
    else Scan(places[1..], city, state)
  }

  function FirstWithKey(rows: seq<Row>, key: string): Option<Row> {
    if rows == [] then None
    else if rows[0].lookupKey == key then Some(rows[0]) else FirstWithKey(rows[1..], key)
  }

  /** Existing keys keep their rows; a new key gets the first row that has it. */
  lemma {:induction false} InsertAllMeaning(cache: Cache, rows: seq<Row>, key: string)
    ensures key in cache ==> key in InsertAll(cache, rows) && InsertAll(cache, rows)[key] == cache[key]
    ensures key !in cache ==>
              (if key in InsertAll(cache, rows) then Some(InsertAll(cache, rows)[key]) else None)
              == FirstWithKey(rows, key)
    decreases |rows|
  {
    if rows != [] {
      InsertAllMeaning(Insert(cache, rows[0]), rows[1..], key);
    }
  }

  lemma {:induction false} AllKeysPresent(cache: Cache, rows: seq<Row>)
    requires forall i :: 0 <= i < |rows| ==> rows[i].lookupKey in cache
    ensures InsertAll(cache, rows) == cache
    decreases |rows|
  {
    if rows != [] {
      AllKeysPresent(cache, rows[1..]);
    }
  }

  /** Seeding the same rows again changes nothing, whatever was cached before. */
  lemma ReseedInsertsNothing(cache: Cache, rows: seq<Row>)
    ensures InsertAll(InsertAll(cache, rows), rows) == InsertAll(cache, rows)
  {
    forall i | 0 <= i < |rows| ensures rows[i].lookupKey in InsertAll(cache, rows) {
      RowIsFound(rows, i);
      InsertAllMeaning(cache, rows, rows[i].lookupKey);
    }
    AllKeysPresent(InsertAll(cache, rows), rows);
  }

  lemma {:induction false} RowIsFound(rows: seq<Row>, i: nat)
    requires i < |rows|
    ensures FirstWithKey(rows, rows[i].lookupKey).Some?
    decreases |rows|
  {
    if i > 0 {
      RowIsFound(rows[1..], i - 1);
    }
  }

  // ---- what a scan finds ----

  /** Keys ignore case and surrounding white space, and nothing else. */
  lemma NormEqualExactly(a: string, b: string)
    ensures Norm(a) == Norm(b) <==> SameIgnoringCase(Trim(a), Trim(b))
  {
    hide Trim;
    var x, y := Trim(a), Trim(b);
    if Norm(a) == Norm(b) {
      forall i | 0 <= i < |x| ensures SameLetter(x[i], y[i]) {
        assert Upper(x)[i] == Upper(y)[i];
      }
    }
    if SameIgnoringCase(x, y) {
      assert forall i :: 0 <= i < |x| ==> SameLetter(x[i], y[i]);
    }
  }

  /** The place is the queried one, but for case and surrounding white space. */
  predicate Matches(place: Place, city: string, state: string) {
    SameIgnoringCase(Trim(place.city), Trim(city)) && SameIgnoringCase(Trim(place.state), Trim(state))
  }

  /** Scanning finds the first matching place's own latitude and longitude, or nothing when none matches. */
  lemma {:induction false} ScanExactly(places: seq<Place>, city: string, state: string)
    ensures Scan(places, city, state) == None <==> forall i :: 0 <= i < |places| ==> !Matches(places[i], city, state)
    ensures Scan(places, city, state).Some? ==>
              exists i :: 0 <= i < |places| && Matches(places[i], city, state)
                          && (forall j :: 0 <= j < i ==> !Matches(places[j], city, state))
                          && Scan(places, city, state).value.lat == places[i].lat
                          && Scan(places, city, state).value.lng == places[i].lng
    decreases |places|
  {
    hide Norm, SameIgnoringCase, Trim;
    if places != [] {
      NormEqualExactly(places[0].city, city);
      NormEqualExactly(places[0].state, state);
      ScanExactly(places[1..], city, state);
      if !Matches(places[0], city, state) && Scan(places, city, state).Some? {
        var i :| 0 <= i < |places[1..]| && Matches(places[1..][i], city, state)
                 && (forall j :: 0 <= j < i ==> !Matches(places[1..][j], city, state))
                 && Scan(places[1..], city, state).value.lat == places[1..][i].lat
                 && Scan(places[1..], city, state).value.lng == places[1..][i].lng;
        FirstAfter(places, city, state, i);
      }
    }
  }

  lemma FirstAfter(places: seq<Place>, city: string, state: string, i: nat)
    requires i + 1 < |places| && !Matches(places[0], city, state)
    requires forall j :: 0 <= j < i ==> !Matches(places[1..][j], city, state)
    ensures forall j :: 0 <= j < i + 1 ==> !Matches(places[j], city, state)
    ensures places[1..][i] == places[i + 1]
  {
    hide Matches;
    forall j | 0 <= j < i + 1 ensures !Matches(places[j], city, state) {
      assert j > 0 ==> places[1..][j - 1] == places[j];
    }
  }

  // ---- writing a CSV and reading it back ----

  function Quoted(field: string): string {
    "\"" + field + "\""
  }

  function CsvLine(p: Place): string {
    Quoted(p.city) + "," + (Quoted(p.state) + "," + (Quoted(p.lat) + "," + Quoted(p.lng)))
  }

  /** The header, then one quoted line for each place, each ended by a newline. */
  function CsvLines(places: seq<Place>): string {
    if places == [] then "" else CsvLine(places[0]) + "\n" + CsvLines(places[1..])
  }

  function CsvText(places: seq<Place>): string {
    HEADER + "\n" + CsvLines(places)
  }

  predicate Writable(p: Place) {
    IsFieldText(p.city) && IsFieldText(p.state) && IsFieldText(p.lat) && IsFieldText(p.lng)
  }

  lemma CsvLineFields(p: Place)
    requires Writable(p)
    ensures FieldsFrom(CsvLine(p), "", false) == [p.city, p.state, p.lat, p.lng]
    ensures Trimmed(CsvLine(p)) && CsvLine(p) != "" && Free(CsvLine(p), '\n')
  {
    var texts := [Quoted(p.city), Quoted(p.state), Quoted(p.lat), Quoted(p.lng)];
    SplitUndoesQuoting(texts, [p.city, p.state, p.lat, p.lng]);
    assert texts[1..] == [Quoted(p.state), Quoted(p.lat), Quoted(p.lng)];
    assert texts[1..][1..] == [Quoted(p.lat), Quoted(p.lng)] && texts[1..][1..][1..] == [Quoted(p.lng)];
    assert Join(texts[1..][1..][1..], ",") == Quoted(p.lng);
    assert Join(texts[1..][1..], ",") == Quoted(p.lat) + "," + Quoted(p.lng);
    assert Join(texts[1..], ",") == Quoted(p.state) + "," + (Quoted(p.lat) + "," + Quoted(p.lng));
    assert Join(texts, ",") == CsvLine(p);
  }

  /** The data lines of the text, then the empty piece after the last newline. */
  lemma {:induction false} CsvLinesSplit(places: seq<Place>, number: nat)
    requires forall i :: 0 <= i < |places| ==> Writable(places[i])
    ensures PlacesOf(NonBlank(Split(CsvLines(places), '\n')), number) == Ok(places)
    decreases |places|
  {
    hide Split, Trim, FieldsFrom, CsvLine, Writable;
    if places == [] {
      NothingSplit();
    } else {
      var line, rest := CsvLine(places[0]), CsvLines(places[1..]);
      CsvLineFields(places[0]);
      TrimTrimmed(line);
      SplitFirst(line, '\n', rest);
      var lines := Split(rest, '\n');
      assert ([line] + lines)[1..] == lines;
      assert NonBlank([line] + lines) == [line] + NonBlank(lines);
      CsvLinesSplit(places[1..], number + 1);
      OneMorePlace(line, NonBlank(lines), places, number);
    }
  }

  lemma OneMorePlace(line: string, lines: seq<string>, places: seq<Place>, number: nat)
    requires places != [] && PlacesOf(lines, number + 1) == Ok(places[1..])
    requires FieldsFrom(line, "", false) == [places[0].city, places[0].state, places[0].lat, places[0].lng]
    ensures PlacesOf([line] + lines, number) == Ok(places)
  {
    hide FieldsFrom;
    assert ([line] + lines)[1..] == lines;
    assert [places[0]] + places[1..] == places;
  }

  lemma NothingSplit()
    ensures Split("", '\n') == [""] && NonBlank([""]) == [] && PlacesOf([], 0) == Ok([])
    ensures forall number :: PlacesOf([], number) == Ok([])
  {
    TrimTrimmed("");
    assert [""][1..] == [];
  }

  /** Any list of places, written as CSV, is read back field for field. */
  lemma CsvRoundTrip(places: seq<Place>)
    requires forall i :: 0 <= i < |places| ==> Writable(places[i])
    ensures ParseCsv(CsvText(places)) == Ok(places)
  {
    hide Split, Trim, PlacesOf, CsvLines, Writable, Trimmed;
    HeaderIsPlain();
    TrimTrimmed(HEADER);
    var rest := CsvLines(places);
    SplitFirst(HEADER, '\n', rest);
    var lines := Split(rest, '\n');
    assert ([HEADER] + lines)[1..] == lines;
    assert NonBlank([HEADER] + lines) == [HEADER] + NonBlank(lines);
    CsvLinesSplit(places, 2);
    assert ([HEADER] + NonBlank(lines))[1..] == NonBlank(lines);
  }

  /** The error names the first line with fewer than four fields, counting the header as line 1. */
  lemma {:induction false} MalformedRowExactly(lines: seq<string>, number: nat, n: nat)
    ensures PlacesOf(lines, number) == Err(MalformedRow(n)) <==>
              && number <= n < number + |lines| && |FieldsFrom(lines[n - number], "", false)| < 4
              && forall i :: 0 <= i < n - number ==> |FieldsFrom(lines[i], "", false)| >= 4
    ensures PlacesOf(lines, number).Err? ==> PlacesOf(lines, number).error.MalformedRow?
    decreases |lines|
  {
    hide FieldsFrom;
    if lines != [] {
      MalformedRowExactly(lines[1..], number + 1, n);
      assert forall i :: 1 <= i < |lines| ==> lines[1..][i - 1] == lines[i];
      if |FieldsFrom(lines[0], "", false)| >= 4 && number < n < number + |lines| {
        assert lines[1..][n - number - 1] == lines[n - number];
        assert (forall i :: 0 <= i < n - number ==> |FieldsFrom(lines[i], "", false)| >= 4)
          <==> forall i :: 0 <= i < n - number - 1 ==> |FieldsFrom(lines[1..][i], "", false)| >= 4 by {
          assert forall i :: 0 <= i < n - number - 1 ==> lines[1..][i] == lines[i + 1];
        }
      }
    }
  }

  // ---- when the key tells city from state ----

  /** What a split CSV field can hold: no quote, and no newline. */
  predicate IsFieldText(s: string) {
    Free(s, '"') && Free(s, '\n')
  }

  /** The joined key splits at one place only into a trimmed city and state that a CSV can hold. */
  predicate UnambiguousInCsv(city: string, state: string) {
    var key := BuildLookupKey(city, state);
    forall i :: 0 <= i < |key| && key[i] == '|' && i != |Norm(city)| ==> !SplitsAt(key, i)
  }

  predicate SplitsAt(key: string, i: nat)
    requires i < |key|
  {
    && Trimmed(key[..i]) && IsFieldText(key[..i])
    && Trimmed(key[i + 1..]) && IsFieldText(key[i + 1..])
  }

  lemma NormIsTrimmed(s: string)
    ensures Trimmed(Norm(s))
  {
    hide Trim, IsSpace;
    TrimIsTrimmed(s);
    var t := Trim(s);
    if t != [] {
      UpperKeepsSpaces(t[0]);
      UpperKeepsSpaces(t[|t| - 1]);
    }
  }

  lemma UpperKeepsSpaces(c: char)
    ensures IsSpace(UpperChar(c)) == IsSpace(c)
    ensures UpperChar(UpperChar(c)) == UpperChar(c)
  {
  }

  lemma NormIsFieldText(s: string)
    requires IsFieldText(s)
    ensures IsFieldText(Norm(s))
  {
    hide IsSpace;
    var i := TrimStartShape(s);
    var k := TrimEndShape(s[i..]);
    assert Trim(s) == s[i..][..k];
  }

  // ---- what parsing a CSV can yield ----

  /** Splitting a line makes no character up, and drops every quote. */
  lemma {:induction false} FieldsAreFieldText(line: string, current: string, inQuotes: bool)
    requires Free(line, '\n') && IsFieldText(current)
    ensures forall i :: 0 <= i < |FieldsFrom(line, current, inQuotes)| ==>
              IsFieldText(FieldsFrom(line, current, inQuotes)[i])
    decreases |line|
  {
    if line == [] {
    } else if line[0] == '"' {
      FieldsAreFieldText(line[1..], current, !inQuotes);
    } else if line[0] == ',' && !inQuotes {
      FieldsAreFieldText(line[1..], "", false);
    } else {
      FieldsAreFieldText(line[1..], current + [line[0]], inQuotes);
    }
  }

  lemma {:induction false} NonBlankAreLines(lines: seq<string>)
    requires forall i :: 0 <= i < |lines| ==> Free(lines[i], '\n')
    ensures forall i :: 0 <= i < |NonBlank(lines)| ==> Free(NonBlank(lines)[i], '\n')
    decreases |lines|
  {
    hide Trim;
    if lines != [] {
      NonBlankAreLines(lines[1..]);
    }
  }

  predicate ArePlaces(places: seq<Place>) {
    forall i :: 0 <= i < |places| ==> IsFieldText(places[i].city) && IsFieldText(places[i].state)
  }

  lemma {:induction false} PlacesOfAreFieldText(lines: seq<string>, number: nat)
    requires forall i :: 0 <= i < |lines| ==> Free(lines[i], '\n')
    ensures PlacesOf(lines, number).Ok? ==> ArePlaces(PlacesOf(lines, number).value)
    decreases |lines|
  {
    hide IsFieldText, FieldsFrom;
    if lines != [] {
      assert IsFieldText("") by { NothingIsFieldText(); }
      FieldsAreFieldText(lines[0], "", false);
      PlacesOfAreFieldText(lines[1..], number + 1);
    }
  }

  lemma NothingIsFieldText()
    ensures IsFieldText("")
  {
  }

  lemma ParsedPlacesAreFieldText(raw: string)
    requires ParseCsv(raw).Ok?
    ensures ArePlaces(ParseCsv(raw).value)
  {
    hide NonBlank, PlacesOf, Split, Trim, ArePlaces;
    JoinOfSplit(raw, '\n');
    NonBlankAreLines(Split(raw, '\n'));
    PlacesOfAreFieldText(NonBlank(Split(raw, '\n'))[1..], 2);
  }

  // ---- lookup is a scan ----

  lemma SameKeySamePlace(city: string, state: string, place: Place)
    requires UnambiguousInCsv(city, state) && IsFieldText(place.city) && IsFieldText(place.state)
    requires BuildLookupKey(place.city, place.state) == BuildLookupKey(city, state)
    ensures Norm(place.city) == Norm(city) && Norm(place.state) == Norm(state)
  {
    hide Norm, Trimmed, IsFieldText;
    NormIsTrimmed(place.city);
    NormIsTrimmed(place.state);
    NormIsFieldText(place.city);
    NormIsFieldText(place.state);
    var key := BuildLookupKey(place.city, place.state);
    var i := |Norm(place.city)|;
    assert key[..i] == Norm(place.city) && key[i] == '|' && key[i + 1..] == Norm(place.state);
    var j := |Norm(city)|;
    assert key[..j] == Norm(city) && key[j + 1..] == Norm(state);
  }

  lemma {:induction false} ScanIsFirstWithKey(places: seq<Place>, city: string, state: string)
    requires UnambiguousInCsv(city, state) && ArePlaces(places)
    ensures FirstWithKey(RowsOf(places), BuildLookupKey(city, state)) == Scan(places, city, state)
    decreases |places|
  {
    hide UnambiguousInCsv, Norm, IsFieldText;
    if places != [] {
      assert RowsOf(places)[1..] == RowsOf(places[1..]);
      ScanIsFirstWithKey(places[1..], city, state);
      if BuildLookupKey(places[0].city, places[0].state) == BuildLookupKey(city, state) {
        SameKeySamePlace(city, state, places[0]);
      }
    }
  }

  /** Seeding an empty cache from a CSV and looking up an unambiguous query scans the CSV. */
  lemma LookupIsScan(raw: string, city: string, state: string)
    requires ParseCsv(raw).Ok? && UnambiguousInCsv(city, state)
    ensures Lookup(InsertAll(map[], RowsOf(ParseCsv(raw).value)), city, state) == Scan(ParseCsv(raw).value, city, state)
  {
    hide UnambiguousInCsv, ParseCsv, ArePlaces, BuildLookupKey, Scan;
    var places := ParseCsv(raw).value;
    ParsedPlacesAreFieldText(raw);
    InsertAllMeaning(map[], RowsOf(places), BuildLookupKey(city, state));
    ScanIsFirstWithKey(places, city, state);
  }

  ghost predicate AlwaysAgrees(city: string, state: string) {
    forall raw :: ParseCsv(raw).Ok? ==>
      Lookup(InsertAll(map[], RowsOf(ParseCsv(raw).value)), city, state) == Scan(ParseCsv(raw).value, city, state)
  }

  /** Lookup agrees with the scan for every CSV text exactly when the query's key is unambiguous. */
  lemma LookupIsScanExactlyWhenUnambiguous(city: string, state: string)
    ensures AlwaysAgrees(city, state) <==> UnambiguousInCsv(city, state)
  {
    hide ParseCsv, SplitsAt, BuildLookupKey, Norm, RowsOf, InsertAll, Scan, Lookup;
    if UnambiguousInCsv(city, state) {
      forall raw | ParseCsv(raw).Ok?
        ensures Lookup(InsertAll(map[], RowsOf(ParseCsv(raw).value)), city, state)
                == Scan(ParseCsv(raw).value, city, state)
      {
        LookupIsScan(raw, city, state);
      }
    } else {
      var key := BuildLookupKey(city, state);
      var i :| 0 <= i < |key| && key[i] == '|' && i != |Norm(city)| && SplitsAt(key, i);
      MisleadingCsvMisleads(city, state, i);
    }
  }

  // ---- the CSV text that misleads an ambiguous query ----

  const HEADER := "city,state,lat,lng"

  /** One row, its city and state quoted. */
  function OneRowCsv(city: string, state: string): string {
    HEADER + "\n" + DataLine(city, state)
  }

  function DataLine(city: string, state: string): string {
    "\"" + city + "\",\"" + state + "\",0,0"
  }

  lemma DataLineFields(city: string, state: string)
    requires IsFieldText(city) && IsFieldText(state)
    ensures FieldsFrom(DataLine(city, state), "", false) == [city, state, "0", "0"]
    ensures Trimmed(DataLine(city, state)) && Free(DataLine(city, state), '\n')
  {
    var texts := ["\"" + city + "\"", "\"" + state + "\"", "0", "0"];
    var fields := [city, state, "0", "0"];
    SplitUndoesQuoting(texts, fields);
    assert texts[1..] == ["\"" + state + "\"", "0", "0"];
    assert texts[1..][1..] == ["0", "0"] && texts[1..][1..][1..] == ["0"];
    assert Join(["0", "0"], ",") == "0,0";
    assert Join(texts[1..], ",") == "\"" + state + "\"" + "," + "0,0";
    assert Join(texts, ",") == "\"" + city + "\"" + "," + ("\"" + state + "\"" + "," + "0,0");
    assert Join(texts, ",") == DataLine(city, state);
  }

  lemma OneRowParses(city: string, state: string)
    requires IsFieldText(city) && IsFieldText(state)
    ensures ParseCsv(OneRowCsv(city, state)) == Ok([Place(city, state, "0", "0")])
  {
    hide IsFieldText, Trim, FieldsFrom, Split, DataLine, Trimmed;
    var line := DataLine(city, state);
    DataLineFields(city, state);
    LineIsVisible(city, state);
    HeaderIsPlain();
    SplitFirst(HEADER, '\n', line);
    SplitFirst(line, '\n', "");
    TrimTrimmed(HEADER);
    TrimTrimmed(line);
    assert [HEADER] + [line] == [HEADER, line];
    NonBlankOfTwo(HEADER, line);
    assert [HEADER, line][1..] == [line];
    OnePlace(line, city, state);
  }

  lemma LineIsVisible(city: string, state: string)
    ensures DataLine(city, state) != ""
  {
  }

  lemma HeaderIsPlain()
    ensures Free(HEADER, '\n') && Trimmed(HEADER) && HEADER != ""
  {
  }

  lemma NonBlankOfTwo(a: string, b: string)
    requires Trim(a) != "" && Trim(b) != ""
    ensures NonBlank([a, b]) == [a, b]
  {
    hide Trim;
    assert [a, b][1..] == [b] && [b][1..] == [];
    assert NonBlank([b]) == [b] + NonBlank([]);
  }

  lemma OnePlace(line: string, city: string, state: string)
    requires FieldsFrom(line, "", false) == [city, state, "0", "0"]
    ensures PlacesOf([line], 2) == Ok([Place(city, state, "0", "0")])
  {
    hide FieldsFrom;
    assert [line][1..] == [];
    assert PlacesOf([], 3) == Ok([]);
    assert [Place(city, state, "0", "0")] + [] == [Place(city, state, "0", "0")];
  }

  /** A fixed point of normalisation: a trimmed piece of an already normalised key. */
  lemma PieceIsNormal(city: string, state: string, i: nat, j: nat)
    requires i <= j <= |BuildLookupKey(city, state)| && Trimmed(BuildLookupKey(city, state)[i..j])
    ensures Norm(BuildLookupKey(city, state)[i..j]) == BuildLookupKey(city, state)[i..j]
  {
    hide IsSpace, Trim;
    var key := BuildLookupKey(city, state);
    var piece := key[i..j];
    TrimTrimmed(piece);
    forall k | 0 <= k < |piece| ensures UpperChar(piece[k]) == piece[k] {
      KeyIsUpper(city, state, i + k);
    }
    assert Upper(piece) == piece;
  }

  lemma KeyIsUpper(city: string, state: string, k: nat)
    requires k < |BuildLookupKey(city, state)|
    ensures UpperChar(BuildLookupKey(city, state)[k]) == BuildLookupKey(city, state)[k]
  {
    hide Trim, IsSpace;
    var c, s := Trim(city), Trim(state);
    if k < |c| {
      UpperKeepsSpaces(c[k]);
    } else if k > |c| {
      UpperKeepsSpaces(s[k - |c| - 1]);
    }
  }

  /** The row whose city and state are the other split of the key is found, though no scan finds it. */
  lemma MisleadingCsvMisleads(city: string, state: string, i: nat)
    requires var key := BuildLookupKey(city, state);
             i < |key| && key[i] == '|' && i != |Norm(city)| && SplitsAt(key, i)
    ensures var key := BuildLookupKey(city, state);
            var parsed := ParseCsv(OneRowCsv(key[..i], key[i + 1..]));
            && parsed.Ok?
            && Lookup(InsertAll(map[], RowsOf(parsed.value)), city, state).Some?
            && Scan(parsed.value, city, state) == None
    ensures !AlwaysAgrees(city, state)
  {
    hide Norm, Trimmed, IsFieldText, ParseCsv;
    var key := BuildLookupKey(city, state);
    var place := Place(key[..i], key[i + 1..], "0", "0");
    OneRowParses(place.city, place.state);
    assert key[0..i] == key[..i] && key[i + 1..|key|] == key[i + 1..];
    PieceIsNormal(city, state, 0, i);
    PieceIsNormal(city, state, i + 1, |key|);
    assert key == key[..i] + "|" + key[i + 1..];
    var places := [place];
    assert RowsOf(places) == [RowOf(place)];
    assert [RowOf(place)][1..] == [] && places[1..] == [];
    assert InsertAll(map[], [RowOf(place)]) == InsertAll(Insert(map[], RowOf(place)), []);
    assert Scan(places, city, state) == None by {
      assert Scan([], city, state) == None;
    }
    assert Lookup(InsertAll(map[], RowsOf(places)), city, state).Some?;
    assert ParseCsv(OneRowCsv(place.city, place.state)).value == places;
  }

  /** Cities and states without a vertical bar, as every real one, are unambiguous. */
  lemma BarFreeIsUnambiguous(city: string, state: string)
    requires Free(Norm(city), '|') && Free(Norm(state), '|')
    ensures UnambiguousInCsv(city, state)
  {
    hide Norm, Trimmed;
    var key := BuildLookupKey(city, state);
    forall i | 0 <= i < |key| && i != |Norm(city)| ensures key[i] != '|' {
    }
  }
}
