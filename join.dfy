/**
 * The join of crawlTrashCollections.py's `__main__` block: the streets
 * table is read into a key map, every collection row is looked up by its
 * normalised street name, a matched row takes the street's location id,
 * every row's events are written to the collections file, and the matched
 * streets are written, once each, to the used-streets file.
 *
 * Both files are modelled by their text. A run that raises is modelled by
 * the exception alone: what was written before it is not.
 */
module CollectionJoin {
  import opened Wrappers
  import opened Text
  import opened StreetName
  import opened Schedule
  import opened AwsRows
  import opened StreetTable

  // ---------------------------------------------------------------------
  // The streets table of crawlTrashCollections.py

  /** A row of the streets table with its name and location id: that module's `Street`. */
  datatype StreetRecord = StreetRecord(name: string, uuid: string, row: seq<string>, header: seq<string>)

  /** The positions of the `location_id` and `name` columns, as `header.index` finds them. */
  datatype Columns = Columns(locationId: nat, name: nat)

  /** The key of a row, or `None` where computing the dict entry raises. */
  function RowKey(row: seq<string>, cols: Columns): (k: Option<string>)
    ensures k.Some? ==> cols.name < |row| && cols.locationId < |row|
    ensures k.Some? ==> k == Normalize(row[cols.name])
  {
    if cols.name < |row| && cols.locationId < |row| then Normalize(row[cols.name]) else None
  }

  function RowKeys(rows: seq<seq<string>>, cols: Columns): (keys: seq<Option<string>>)
    ensures |keys| == |rows|
    ensures forall i :: 0 <= i < |rows| ==> keys[i] == RowKey(rows[i], cols)
  {
    seq(|rows|, i requires 0 <= i < |rows| => RowKey(rows[i], cols))
  }

  function Record(row: seq<string>, header: seq<string>, cols: Columns): StreetRecord
    requires cols.name < |row| && cols.locationId < |row|
  {
    StreetRecord(row[cols.name], row[cols.locationId], row, header)
  }

  /**
   * `getStreetsDictFromCSV`: the records keyed by normalised name, or
   * `None` when a row is too short or its name does not normalise.
   */
  function StreetsDict(rows: seq<seq<string>>, header: seq<string>, cols: Columns): (d: Option<map<string, StreetRecord>>)
    ensures d.Some? <==> forall i :: 0 <= i < |rows| ==> RowKey(rows[i], cols).Some?
  {
    var keys := RowKeys(rows, cols);
    LastIndexFails(keys);
    match LastIndex(keys)
    case None => None
    case Some(m) =>
      assert forall k :: k in m ==> RowKey(rows[m[k]], cols).Some? by {
        forall k | k in m
          ensures RowKey(rows[m[k]], cols).Some?
        {
          LastIndexLast(keys, k);
        }
      }
      Some(map k | k in m :: Record(rows[m[k]], header, cols))
  }

  /**
   * A name is a key exactly when some row normalises to it, and its
   * record is built from the last such row.
   */
  lemma StreetsDictEntry(rows: seq<seq<string>>, header: seq<string>, cols: Columns, k: string)
    requires StreetsDict(rows, header, cols).Some?
    ensures k in StreetsDict(rows, header, cols).value <==>
      exists i :: 0 <= i < |rows| && RowKey(rows[i], cols) == Some(k)
    ensures k in StreetsDict(rows, header, cols).value ==>
      exists i :: 0 <= i < |rows| && RowKey(rows[i], cols) == Some(k)
        && StreetsDict(rows, header, cols).value[k] == Record(rows[i], header, cols)
        && forall j :: i < j < |rows| ==> RowKey(rows[j], cols) != Some(k)
  {
    var keys := RowKeys(rows, cols);
    LastIndexFails(keys);
    LastIndexKeys(keys, k);
    if k in LastIndex(keys).value {
      LastIndexLast(keys, k);
      var i := LastIndex(keys).value[k];
      assert RowKey(rows[i], cols) == Some(k);
      assert StreetsDict(rows, header, cols).value[k] == Record(rows[i], header, cols);
      assert forall j :: i < j < |rows| ==> RowKey(rows[j], cols) != Some(k) by {
        assert forall j :: i < j < |keys| ==> keys[j] != Some(k);
      }
    }
  }

  /**
   * `getCSV()`: the first three cells of the row, the second and third
   * quoted, whatever the columns hold; a shorter row raises IndexError.
   */
  function StreetCsv(s: StreetRecord): (line: Option<string>)
    ensures line.Some? <==> |s.row| >= 3
  {
    if |s.row| >= 3 then Some(s.row[0] + ",\"" + s.row[1] + "\",\"" + s.row[2] + "\"") else None
  }

  /** Cells after the third do not reach the line. */
  lemma StreetCsvFirstCells(s: StreetRecord)
    requires |s.row| >= 3
    ensures StreetCsv(s) == StreetCsv(s.(row := s.row[..3]))
  {
  }

  /**
   * In a table laid out like its own header, the line holds the record's
   * location id and its name.
   */
  lemma StreetCsvOwnLayout(row: seq<string>, header: seq<string>)
    requires |row| >= 3
    ensures var s := Record(row, header, Columns(0, 1));
      StreetCsv(s) == Some(s.uuid + ",\"" + s.name + "\",\"" + row[2] + "\"")
  {
  }

  // ---------------------------------------------------------------------
  // usedStreets

  /** A dict that remembers the order in which its keys were first inserted. */
  datatype Used = Used(order: seq<string>, streets: map<string, StreetRecord>)

  /** Each key is listed once, and the list holds exactly the keys. */
  predicate UsedValid(u: Used) {
    (forall i, j :: 0 <= i < j < |u.order| ==> u.order[i] != u.order[j])
    && u.streets.Keys == set k | k in u.order
  }

  const NoneUsed := Used([], map[])

  /**
   * `usedStreets[key] = s`: the key reads `s`; a new key goes last, an
   * existing one keeps its place.
   */
  function Put(u: Used, key: string, s: StreetRecord): (r: Used)
    ensures r.streets == u.streets[key := s]
    ensures u.order <= r.order
    ensures UsedValid(u) ==> UsedValid(r)
  {
    if key in u.streets then Used(u.order, u.streets[key := s])
    else Used(u.order + [key], u.streets[key := s])
  }

  // ---------------------------------------------------------------------
  // The loop over the collection rows

  datatype JoinError =
    | NameFails      // `normalizeName` raises AttributeError, which is not caught
    | Expand(e: ExpandError) // `row.getCSV()` raises
    | ShortStreetRow // a used street's `getCSV()` raises IndexError

  /**
   * The two steps of a turn of the loop that can raise: the key of a
   * street name and the text of a row. The script uses `normalizeName` and
   * `getCSV()`; the loop is stated for any such pair.
   */
  datatype RowPass = RowPass(key: string -> Option<string>, text: RowFields -> Result<string, ExpandError>)

  const ScriptPass := RowPass(Normalize, RowCsv)

  /** The street a row matches, `None` on a KeyError, or the exception of its normalisation. */
  function Lookup(row: RowFields, streets: map<string, StreetRecord>, p: RowPass): (r: Result<Option<StreetRecord>, JoinError>)
    ensures r.Err? <==> p.key(row.street).None?
    ensures r.Ok? ==> (r.value.Some? <==> p.key(row.street).value in streets)
  {
    match p.key(row.street)
    case None => Err(NameFails)
    case Some(key) => Ok(if key in streets then Some(streets[key]) else None)
  }

  /** `row.geoId = street.uuid` on a match; nothing on a miss. */
  function Matched(row: RowFields, hit: Option<StreetRecord>): (r: RowFields)
    ensures hit.None? ==> r == row
    ensures hit.Some? ==> r.geoId == Squash(hit.value.uuid)
    ensures forall f :: f != GeoId ==> Get(r, f) == Get(row, f)
  {
    if hit.Some? then With(row, GeoId, Squash(hit.value.uuid)) else row
  }

  /** The rows after the loop, the text written for each, and the used streets. */
  datatype Joined = Joined(rows: seq<RowFields>, texts: seq<string>, used: Used)

  /**
   * What one turn of the loop does apart from updating the used streets:
   * the row after it, the text written for it and the street it matched,
   * or the exception it raises. None of it depends on the earlier turns.
   */
  type Step = Result<(RowFields, string, Option<StreetRecord>), JoinError>

  function RowTurn(row: RowFields, streets: map<string, StreetRecord>, p: RowPass): Step {
    match Lookup(row, streets, p)
    case Err(e) => Err(e)
    case Ok(hit) =>
      var row' := Matched(row, hit);
      match p.text(row')
      case Err(e) => Err(Expand(e))
      case Ok(text) => Ok((row', text, hit))
  }

  /** `usedStreets[street.uuid] = street` after a match; nothing after a miss. */
  function MarkUsed(used: Used, hit: Option<StreetRecord>): Used {
    if hit.Some? then Put(used, hit.value.uuid, hit.value) else used
  }

  /** The turns of the loop in order, or the exception of the first turn that raises. */
  function Fold(steps: seq<Step>): Result<Joined, JoinError>
    decreases |steps|
  {
    if steps == [] then Ok(Joined([], [], NoneUsed))
    else
      match Fold(steps[..|steps| - 1])
      case Err(e) => Err(e)
      case Ok(j) =>
        match steps[|steps| - 1]
        case Err(e) => Err(e)
        case Ok(t) => Ok(Joined(j.rows + [t.0], j.texts + [t.1], MarkUsed(j.used, t.2)))
  }

  /**
   * `steps` holds the turn of each row. The link to the turns is only
   * drawn where a turn of some row is mentioned.
   */
  predicate TurnsOf(rows: seq<RowFields>, steps: seq<Step>, streets: map<string, StreetRecord>, p: RowPass) {
    |steps| == |rows|
    && forall k {:trigger RowTurn(rows[k], streets, p)} :: 0 <= k < |rows| ==> steps[k] == RowTurn(rows[k], streets, p)
  }

  /** The turn of each row. */
  function Steps(rows: seq<RowFields>, streets: map<string, StreetRecord>, p: RowPass): (steps: seq<Step>)
    ensures TurnsOf(rows, steps, streets, p)
  {
    seq(|rows|, i requires 0 <= i < |rows| => RowTurn(rows[i], streets, p))
  }

  /** The loop over all rows, or the first exception it raises. */
  function JoinAll(rows: seq<RowFields>, streets: map<string, StreetRecord>, p: RowPass): Result<Joined, JoinError> {
    Fold(Steps(rows, streets, p))
  }

  /** A row passes the loop: its name normalises and its text can be made. */
  predicate RowJoins(row: RowFields, streets: map<string, StreetRecord>, p: RowPass) {
    RowTurn(row, streets, p).Ok?
  }

  /** The street a row matched, if its name normalises and is a key. */
  function HitOf(row: RowFields, streets: map<string, StreetRecord>, p: RowPass): Option<StreetRecord> {
    if Lookup(row, streets, p).Ok? then Lookup(row, streets, p).value else None
  }

  /**
   * The loop raises exactly when some turn raises; otherwise each turn
   * adds its row and its text.
   */
  lemma {:induction false} FoldRows(steps: seq<Step>)
    ensures Fold(steps).Ok? <==> forall i :: 0 <= i < |steps| ==> steps[i].Ok?
    ensures Fold(steps).Ok? ==>
      var j := Fold(steps).value;
      |j.rows| == |steps| && |j.texts| == |steps|
      && forall i :: 0 <= i < |steps| ==> j.rows[i] == steps[i].value.0 && j.texts[i] == steps[i].value.1
    decreases |steps|
  {
    if steps != [] {
      var init := steps[..|steps| - 1];
      FoldRows(init);
      assert forall i :: 0 <= i < |init| ==> init[i] == steps[i];
    }
  }

  /**
   * The used streets after the loop: each listed once, and a location id
   * is used exactly when some turn matched a street with it.
   */
  lemma {:induction false} FoldUsed(steps: seq<Step>, uuid: string)
    requires Fold(steps).Ok?
    ensures UsedValid(Fold(steps).value.used)
    ensures uuid in Fold(steps).value.used.streets <==>
      exists i :: 0 <= i < |steps| && steps[i].Ok? && steps[i].value.2.Some? && steps[i].value.2.value.uuid == uuid
    decreases |steps|
  {
    if steps != [] {
      var init := steps[..|steps| - 1];
      var last := steps[|steps| - 1];
      assert Fold(init).Ok? && last.Ok?;
      FoldUsed(init, uuid);
      assert forall i :: 0 <= i < |init| ==> init[i] == steps[i];
      var used := Fold(steps).value.used;
      var used0 := Fold(init).value.used;
      assert used == MarkUsed(used0, last.value.2);
      if uuid in used.streets && !(last.value.2.Some? && last.value.2.value.uuid == uuid) {
        assert uuid in used0.streets;
        var i :| 0 <= i < |init| && init[i].Ok? && init[i].value.2.Some? && init[i].value.2.value.uuid == uuid;
        assert steps[i].Ok? && steps[i].value.2.Some? && steps[i].value.2.value.uuid == uuid;
      }
      if exists i :: 0 <= i < |steps| && steps[i].Ok? && steps[i].value.2.Some? && steps[i].value.2.value.uuid == uuid {
        var i :| 0 <= i < |steps| && steps[i].Ok? && steps[i].value.2.Some? && steps[i].value.2.value.uuid == uuid;
        if i < |init| {
          assert init[i].Ok? && init[i].value.2.Some? && init[i].value.2.value.uuid == uuid;
          assert uuid in used0.streets;
        }
        assert uuid in used.streets;
      }
    }
  }

  /** Every used street is the one that some turn matched. */
  lemma {:induction false} FoldUsedFound(steps: seq<Step>, uuid: string)
    requires Fold(steps).Ok? && uuid in Fold(steps).value.used.streets
    ensures exists i :: 0 <= i < |steps| && steps[i].Ok? && steps[i].value.2 == Some(Fold(steps).value.used.streets[uuid])
    decreases |steps|
  {
    var init := steps[..|steps| - 1];
    var last := steps[|steps| - 1];
    var used := Fold(steps).value.used;
    assert Fold(init).Ok? && last.Ok?;
    assert used == MarkUsed(Fold(init).value.used, last.value.2);
    assert forall i :: 0 <= i < |init| ==> init[i] == steps[i];
    if last.value.2.Some? && last.value.2.value.uuid == uuid {
      assert steps[|steps| - 1].value.2 == Some(used.streets[uuid]);
    } else {
      FoldUsedFound(init, uuid);
      var i :| 0 <= i < |init| && init[i].Ok? && init[i].value.2 == Some(Fold(init).value.used.streets[uuid]);
      assert steps[i].value.2 == Some(used.streets[uuid]);
    }
  }

  /** A turn that does not raise is the row after a lookup, and the text of that row. */
  lemma RowTurnOk(row: RowFields, streets: map<string, StreetRecord>, p: RowPass)
    ensures RowTurn(row, streets, p).Ok? ==>
      var t := RowTurn(row, streets, p).value;
      t.0 == Matched(row, HitOf(row, streets, p)) && p.text(t.0) == Ok(t.1) && t.2 == HitOf(row, streets, p)
  {
  }

  /**
   * The loop raises exactly when some row does not pass it. When it does
   * not raise, row `i` keeps its attributes except that a matched row
   * takes the squashed location id of its street, and the text written
   * for it is that row's `getCSV()`.
   */
  lemma JoinAllRows(rows: seq<RowFields>, streets: map<string, StreetRecord>, p: RowPass)
    ensures JoinAll(rows, streets, p).Ok? <==> forall i :: 0 <= i < |rows| ==> RowJoins(rows[i], streets, p)
    ensures JoinAll(rows, streets, p).Ok? ==>
      var j := JoinAll(rows, streets, p).value;
      |j.rows| == |rows| && |j.texts| == |rows|
      && forall i :: 0 <= i < |rows| ==>
        j.rows[i] == Matched(rows[i], HitOf(rows[i], streets, p)) && p.text(j.rows[i]) == Ok(j.texts[i])
  {
    var steps := Steps(rows, streets, p);
    FoldRows(steps);
    forall i | 0 <= i < |rows| {
      RowTurnOk(rows[i], streets, p);
    }
  }

  /**
   * The used streets: each listed once, and a location id is used exactly
   * when some row matched a street with it.
   */
  lemma JoinAllUsed(rows: seq<RowFields>, streets: map<string, StreetRecord>, p: RowPass, uuid: string)
    requires JoinAll(rows, streets, p).Ok?
    ensures UsedValid(JoinAll(rows, streets, p).value.used)
    ensures uuid in JoinAll(rows, streets, p).value.used.streets <==>
      exists i :: 0 <= i < |rows| && HitOf(rows[i], streets, p).Some? && HitOf(rows[i], streets, p).value.uuid == uuid
  {
    var steps := Steps(rows, streets, p);
    FoldRows(steps);
    FoldUsed(steps, uuid);
    forall i | 0 <= i < |rows| {
      RowTurnOk(rows[i], streets, p);
    }
  }

  /** Every used street is the one that some matched row found. */
  lemma JoinAllUsedFound(rows: seq<RowFields>, streets: map<string, StreetRecord>, p: RowPass, uuid: string)
    requires JoinAll(rows, streets, p).Ok? && uuid in JoinAll(rows, streets, p).value.used.streets
    ensures exists i :: 0 <= i < |rows| && HitOf(rows[i], streets, p) == Some(JoinAll(rows, streets, p).value.used.streets[uuid])
  {
    var steps := Steps(rows, streets, p);
    FoldUsedFound(steps, uuid);
    var i :| 0 <= i < |steps| && steps[i].Ok? && steps[i].value.2 == Some(Fold(steps).value.used.streets[uuid]);
    RowTurnOk(rows[i], streets, p);
  }


  // ---------------------------------------------------------------------
  // The two files

  /** The text of both files. */
  datatype Written = Written(collections: string, usedStreets: string)

  /** The lines of the used streets, in the order they were first matched. */
  function UsedLines(u: Used): (r: Result<seq<string>, JoinError>)
    requires forall k :: k in u.order ==> k in u.streets
    ensures r.Ok? ==> |r.value| == |u.order|
    decreases |u.order|
  {
    if u.order == [] then Ok([])
    else
      var key := u.order[|u.order| - 1];
      match UsedLines(Used(u.order[..|u.order| - 1], u.streets))
      case Err(e) => Err(e)
      case Ok(lines) =>
        match StreetCsv(u.streets[key])
        case None => Err(ShortStreetRow)
        case Some(line) => Ok(lines + [line])
  }

  /** Each used street is written on its own line, in order; a short street row raises. */
  lemma {:induction false} UsedLinesEach(u: Used)
    requires forall k :: k in u.order ==> k in u.streets
    ensures UsedLines(u).Ok? <==> forall i :: 0 <= i < |u.order| ==> |u.streets[u.order[i]].row| >= 3
    ensures UsedLines(u).Ok? ==>
      forall i :: 0 <= i < |u.order| ==> Some(UsedLines(u).value[i]) == StreetCsv(u.streets[u.order[i]])
    decreases |u.order|
  {
    if u.order != [] {
      var init := u.order[..|u.order| - 1];
      UsedLinesEach(Used(init, u.streets));
      assert forall i :: 0 <= i < |init| ==> init[i] == u.order[i];
    }
  }

  /** Both files as the script writes them, or the exception that ends it. */
  function Output(rows: seq<RowFields>, streets: map<string, StreetRecord>, p: RowPass): Result<Written, JoinError> {
    match JoinAll(rows, streets, p)
    case Err(e) => Err(e)
    case Ok(j) =>
      JoinAllUsed(rows, streets, p, "");
      match UsedLines(j.used)
      case Err(e) => Err(e)
      case Ok(lines) => Ok(Written(WrittenLines(CsvHeader, j.texts), WrittenLines(StreetsHeader, lines)))
  }

  /** Each header is one line. */
  lemma HeadersHaveNoBreak()
    ensures '\n' !in CsvHeader && '\n' !in StreetsHeader
  {
  }

  /**
   * The collections file, read back line by line: its header, then the
   * lines of each row's `getCSV()` in row order (a row without events
   * leaves a blank line), then the empty rest after the last break.
   */
  lemma CollectionsLines(rows: seq<RowFields>, streets: map<string, StreetRecord>, p: RowPass)
    requires Output(rows, streets, p).Ok?
    ensures var j := JoinAll(rows, streets, p).value;
      Split(Output(rows, streets, p).value.collections, '\n') == [CsvHeader] + SplitAll(j.texts, '\n') + [[]]
  {
    var j := JoinAll(rows, streets, p).value;
    assert Output(rows, streets, p).value.collections == WrittenLines(CsvHeader, j.texts);
    HeadersHaveNoBreak();
    WrittenLinesSplit(CsvHeader, j.texts);
  }

  /**
   * The used-streets file, read back line by line: its header, then one
   * line per used street, in the order of their first match, each street
   * once.
   */
  lemma UsedStreetsLines(rows: seq<RowFields>, streets: map<string, StreetRecord>, p: RowPass)
    requires Output(rows, streets, p).Ok?
    ensures var u := JoinAll(rows, streets, p).value.used;
      UsedValid(u) && UsedLines(u).Ok?
      && Split(Output(rows, streets, p).value.usedStreets, '\n') == [StreetsHeader] + SplitAll(UsedLines(u).value, '\n') + [[]]
  {
    var j := JoinAll(rows, streets, p).value;
    JoinAllUsed(rows, streets, p, "");
    var lines := UsedLines(j.used).value;
    assert Output(rows, streets, p).value.usedStreets == WrittenLines(StreetsHeader, lines);
    HeadersHaveNoBreak();
    WrittenLinesSplit(StreetsHeader, lines);
  }

  // ---------------------------------------------------------------------
  // The script's loop

  function FieldsOf(rows: seq<AwsRow>): (fields: seq<RowFields>)
    reads rows
    ensures |fields| == |rows|
    ensures forall i :: 0 <= i < |rows| ==> fields[i] == rows[i].Fields()
  {
    seq(|rows|, i reads rows requires 0 <= i < |rows| => rows[i].Fields())
  }

  /**
   * Turn `i` either raises, and so does the whole loop, or extends the
   * result of the turns before it.
   */
  lemma FoldNext(steps: seq<Step>, i: nat)
    requires i < |steps| && Fold(steps[..i]).Ok?
    ensures var j := Fold(steps[..i]).value;
      && (steps[i].Err? ==> Fold(steps) == Err(steps[i].error))
      && (steps[i].Ok? ==>
        var t := steps[i].value;
        Fold(steps[..i + 1]) == Ok(Joined(j.rows + [t.0], j.texts + [t.1], MarkUsed(j.used, t.2))))
  {
    assert steps[..i + 1][..i] == steps[..i];
    if steps[i].Err? {
      FoldPrefixErr(steps, i + 1);
    }
  }

  /** Once a prefix of the turns raises, the whole loop raises the same. */
  lemma {:induction false} FoldPrefixErr(steps: seq<Step>, n: nat)
    requires n <= |steps| && Fold(steps[..n]).Err?
    ensures Fold(steps) == Fold(steps[..n])
    decreases |steps|
  {
    if n < |steps| {
      var init := steps[..|steps| - 1];
      assert init[..n] == steps[..n];
      FoldPrefixErr(init, n);
    } else {
      assert steps[..n] == steps;
    }
  }

  /** Once a prefix of the used streets raises, writing them all raises the same. */
  lemma {:induction false} UsedLinesPrefixErr(u: Used, n: nat)
    requires forall k :: k in u.order ==> k in u.streets
    requires n <= |u.order| && UsedLines(Used(u.order[..n], u.streets)).Err?
    ensures UsedLines(u) == UsedLines(Used(u.order[..n], u.streets))
    decreases |u.order|
  {
    if n < |u.order| {
      var init := u.order[..|u.order| - 1];
      assert init[..n] == u.order[..n];
      UsedLinesPrefixErr(Used(init, u.streets), n);
    } else {
      assert u.order[..n] == u.order;
    }
  }

  /**
   * One turn of the loop over the collection rows: row `i` is updated in
   * place as its turn says, the others are left alone, and the text and
   * the used streets after the turn are returned.
   */
  method WriteRow(rows: seq<AwsRow>, i: nat, streets: map<string, StreetRecord>, used: Used,
                  ghost before: seq<RowFields>, ghost steps: seq<Step>)
      returns (r: Result<(string, Used), JoinError>)
    requires i < |rows| && forall a, b :: 0 <= a < b < |rows| ==> rows[a] != rows[b]
    requires |before| == |rows| && TurnsOf(before, steps, streets, ScriptPass) && rows[i].Fields() == before[i]
    modifies rows[i]
    ensures steps[i].Err? ==> r == Err(steps[i].error)
    ensures steps[i].Ok? ==>
      rows[i].Fields() == steps[i].value.0 && r == Ok((steps[i].value.1, MarkUsed(used, steps[i].value.2)))
    ensures forall k :: 0 <= k < |rows| && k != i ==> rows[k].Fields() == old(rows[k].Fields())
  {
    assert steps[i] == RowTurn(before[i], streets, ScriptPass);
    var row := rows[i];
    assert forall k :: 0 <= k < |rows| && k != i ==> rows[k] != row;
    var key := Normalize(row.street);
    if key.None? {
      return Err(NameFails);
    }
    var used' := used;
    if key.value in streets {
      var street := streets[key.value];
      row.Set(GeoId, street.uuid);
      used' := Put(used, street.uuid, street);
    }
    var text := row.GetCsv();
    if text.Err? {
      return Err(Expand(text.error));
    }
    return Ok((text.value, used'));
  }

  /**
   * The loop over the collection rows, given the turn of each row: the
   * rows are updated in place as their turns say, and the collections
   * file's text and the used streets are returned, or the exception of the
   * first turn that raises.
   */
  method WriteRows(rows: seq<AwsRow>, streets: map<string, StreetRecord>, ghost steps: seq<Step>)
      returns (r: Result<(string, Used), JoinError>)
    requires forall a, b :: 0 <= a < b < |rows| ==> rows[a] != rows[b]
    requires TurnsOf(FieldsOf(rows), steps, streets, ScriptPass)
    modifies rows
    ensures Fold(steps).Err? ==> r == Err(Fold(steps).error)
    ensures Fold(steps).Ok? ==>
      r == Ok((WrittenLines(CsvHeader, Fold(steps).value.texts), Fold(steps).value.used))
      && FieldsOf(rows) == Fold(steps).value.rows
  {
    ghost var before := FieldsOf(rows);
    ghost var j := Joined([], [], NoneUsed);
    var used := NoneUsed;
    var collections := CsvHeader + "\n";
    assert steps[..0] == [];
    for i := 0 to |rows|
      invariant |j.rows| == i
      invariant Fold(steps[..i]) == Ok(j)
      invariant j.used == used
      invariant collections == WrittenLines(CsvHeader, j.texts)
      invariant forall k :: 0 <= k < i ==> rows[k].Fields() == j.rows[k]
      invariant forall k :: i <= k < |rows| ==> rows[k].Fields() == before[k]
    {
      FoldNext(steps, i);
      var turn := WriteRow(rows, i, streets, used, before, steps);
      if turn.Err? {
        return Err(turn.error);
      }
      var (text, used') := turn.value;
      collections := collections + text + "\n";
      used := used';
      j := Joined(j.rows + [rows[i].Fields()], j.texts + [text], used);
    }
    assert steps[..|rows|] == steps;
    assert forall k :: 0 <= k < |rows| ==> FieldsOf(rows)[k] == j.rows[k];
    return Ok((collections, used));
  }

  /** The loop over the used streets: the used-streets file's text. */
  method WriteUsedStreets(used: Used) returns (r: Result<string, JoinError>)
    requires UsedValid(used)
    ensures UsedLines(used).Err? ==> r == Err(UsedLines(used).error)
    ensures UsedLines(used).Ok? ==> r == Ok(WrittenLines(StreetsHeader, UsedLines(used).value))
  {
    var text := StreetsHeader + "\n";
    ghost var lines: seq<string> := [];
    assert used.order[..0] == [];
    for i := 0 to |used.order|
      invariant UsedLines(Used(used.order[..i], used.streets)) == Ok(lines)
      invariant text == WrittenLines(StreetsHeader, lines)
    {
      assert used.order[..i + 1][..i] == used.order[..i];
      var line := StreetCsv(used.streets[used.order[i]]);
      if line.None? {
        UsedLinesPrefixErr(used, i + 1);
        return Err(ShortStreetRow);
      }
      text := text + line.value + "\n";
      lines := lines + [line.value];
    }
    assert used.order[..|used.order|] == used.order;
    return Ok(text);
  }

  /** How `Output` follows from the joined rows and the used-streets lines. */
  lemma OutputCases(rows: seq<RowFields>, streets: map<string, StreetRecord>, p: RowPass)
    ensures var joined := Fold(Steps(rows, streets, p));
      && (joined.Err? ==> Output(rows, streets, p) == Err(joined.error))
      && (joined.Ok? ==> UsedValid(joined.value.used))
      && (joined.Ok? && UsedLines(joined.value.used).Err? ==> Output(rows, streets, p) == Err(UsedLines(joined.value.used).error))
      && (joined.Ok? && UsedLines(joined.value.used).Ok? ==>
           Output(rows, streets, p) == Ok(Written(WrittenLines(CsvHeader, joined.value.texts), WrittenLines(StreetsHeader, UsedLines(joined.value.used).value))))
  {
    if JoinAll(rows, streets, p).Ok? {
      JoinAllUsed(rows, streets, p, "");
    }
  }

  /**
   * The `__main__` block after the rows are fetched: the collections file,
   * then the used-streets file.
   */
  method WriteCollections(rows: seq<AwsRow>, streets: map<string, StreetRecord>) returns (r: Result<Written, JoinError>)
    requires forall a, b :: 0 <= a < b < |rows| ==> rows[a] != rows[b]
    modifies rows
    ensures r == Output(old(FieldsOf(rows)), streets, ScriptPass)
    ensures r.Ok? ==> FieldsOf(rows) == JoinAll(old(FieldsOf(rows)), streets, ScriptPass).value.rows
  {
    ghost var before := FieldsOf(rows);
    OutputCases(before, streets, ScriptPass);
    var joined := WriteRows(rows, streets, Steps(before, streets, ScriptPass));
    if joined.Err? {
      return Err(joined.error);
    }
    var (collections, used) := joined.value;
    var usedStreets := WriteUsedStreets(used);
    if usedStreets.Err? {
      return Err(usedStreets.error);
    }
    return Ok(Written(collections, usedStreets.value));
  }
}
