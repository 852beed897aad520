/**
 * street.py: a street with a name, an id and a `Multiline` geometry, its
 * CSV line, and the key map that `getStreetsDictFromCSV` builds from the
 * rows of a streets table.
 *
 * `uuid4()` is an `IdSource` that hands out a new number on every call;
 * an id is the decimal text of its number, so ids from different calls
 * differ. Reading the CSV file and finding the columns in its header are
 * not part of this model: the rows and the column positions are inputs.
 */
module Streets {
  import opened Wrappers
  import opened Text
  import opened Lines
  import opened Multilines
  import opened StreetName
  import opened StreetTable

  /** `uuid4()`: every call returns an id that no earlier call returned. */
  class IdSource {
    var next: nat

    constructor()
      ensures next == 0
    {
      next := 0;
    }

    method Fresh() returns (id: string)
      modifies this
      ensures id == IdText(old(next)) && next == old(next) + 1
    {
      id := IdText(next);
      next := next + 1;
    }
  }

  /** The id handed out for number `n`. */
  function IdText(n: nat): string {
    DecimalText(n)
  }

  /** Different numbers give different ids. */
  lemma IdTextInjective(m: nat, n: nat)
    ensures IdText(m) == IdText(n) <==> m == n
  {
    if IdText(m) == IdText(n) {
      DecimalTextInjective(m, n);
    }
  }

  /** The positions of the `location_id`, `name` and `geometry` columns. */
  datatype Fields = Fields(id: nat, name: nat, geometry: nat)

  class Street {
    const name: string
    const uuid: string
    const multiline: Multiline

    /**
     * `Street(name, line)`: a new id, and a geometry that collects lines
     * and holds this one.
     */
    constructor FromName(name: string, line: Line, ids: IdSource)
      modifies ids
      ensures this.name == name
      ensures uuid == IdText(old(ids.next)) && ids.next == old(ids.next) + 1
      ensures fresh(multiline) && multiline.wkt == None && multiline.lines == Some([line])
    {
      var id := ids.Fresh();
      this.name := name;
      uuid := id;
      multiline := new Multiline(None);
      new;
      var ok := multiline.AddLine(line);
      assert [] + [line] == [line];
    }

    /**
     * `Street(row, fields)`: name and id from their columns, and a geometry
     * holding the WKT column's text, frozen unless that text is empty.
     */
    constructor FromRow(row: seq<string>, fields: Fields)
      requires fields.name < |row| && fields.id < |row| && fields.geometry < |row|
      ensures name == row[fields.name] && uuid == row[fields.id]
      ensures fresh(multiline) && Stored(multiline, row[fields.geometry])
    {
      name := row[fields.name];
      uuid := row[fields.id];
      multiline := new Multiline(Some(row[fields.geometry]));
    }

    /** `addLine(line)`: the geometry's `addLine`. */
    method AddLine(line: Line) returns (ok: bool)
      requires multiline.Valid()
      modifies multiline
      ensures multiline.Valid()
      ensures ok == !Truthy(old(multiline.wkt))
      ensures multiline.wkt == old(multiline.wkt)
      ensures ok ==> old(multiline.lines).Some? && multiline.lines == Some(old(multiline.lines).value + [line])
      ensures !ok ==> multiline.lines == old(multiline.lines)
    {
      ok := multiline.AddLine(line);
    }

    /**
     * `getCSV()`: the id, then the name and the geometry's `getWKT()` in
     * double quotes, separated by commas; a geometry without text is
     * written `None`. As `getWKT()` runs, a geometry holding lines is
     * frozen: its text is stored and later appends fail.
     */
    method GetCsv(fmt: real -> string) returns (line: string)
      requires multiline.Valid()
      modifies multiline
      ensures multiline.Valid()
      ensures line == CsvLine(uuid, name, old(multiline.Pending(fmt)))
      ensures multiline.Pending(fmt) == old(multiline.Pending(fmt))
      ensures multiline.wkt == old(multiline.Pending(fmt))
      ensures multiline.lines == if old(multiline.lines) == Some([]) then Some([]) else None
      ensures old(multiline.lines).Some? && old(multiline.lines).value != [] ==> Truthy(multiline.wkt)
    {
      var w := multiline.GetWkt(fmt);
      line := CsvLine(uuid, name, w);
    }
  }

  /** The state `Multiline(text)` starts in. */
  ghost predicate Stored(m: Multiline, text: string)
    reads m
  {
    m.wkt == Some(text) && m.lines == (if text != "" then None else Some([]))
  }

  /** `str()` of what `getWKT` returns: the text itself, or `None`. */
  function WktStr(w: Option<string>): string {
    match w
    case Some(t) => t
    case None => "None"
  }

  /** `'{},"{}","{}"'.format(uuid, name, wkt)`. */
  function CsvLine(uuid: string, name: string, w: Option<string>): string {
    uuid + ",\"" + name + "\",\"" + WktStr(w) + "\""
  }

  /**
   * Cut at its double quotes, a line reads back as the id with its comma,
   * the name, the comma between, and the geometry, as long as none of them
   * holds a double quote of its own.
   */
  lemma CsvLineFields(uuid: string, name: string, w: Option<string>)
    requires '"' !in uuid && '"' !in name && '"' !in WktStr(w)
    ensures Split(CsvLine(uuid, name, w), '"') == [uuid + ",", name, ",", WktStr(w), ""]
  {
    var t := WktStr(w);
    assert CsvLine(uuid, name, w) == (uuid + ",") + ['"'] + (name + ['"'] + ("," + ['"'] + (t + ['"'] + "")));
    SplitPrefix(uuid + ",", name + ['"'] + ("," + ['"'] + (t + ['"'] + "")), '"');
    SplitPrefix(name, "," + ['"'] + (t + ['"'] + ""), '"');
    SplitPrefix(",", t + ['"'] + "", '"');
    SplitPrefix(t, "", '"');
  }

  // ---------------------------------------------------------------------
  // getStreetsDictFromCSV

  /**
   * The key of a row, or `None` where the comprehension raises on it: a
   * column past the end of the row, or a name that does not normalise.
   */
  function EntryKey(row: seq<string>, fields: Fields): (k: Option<string>)
    ensures k.Some? ==> fields.name < |row| && fields.id < |row| && fields.geometry < |row|
    ensures k.Some? ==> k == Normalize(row[fields.name])
  {
    if fields.name < |row| && fields.id < |row| && fields.geometry < |row|
    then Normalize(row[fields.name])
    else None
  }

  function EntryKeys(rows: seq<seq<string>>, fields: Fields): (keys: seq<Option<string>>)
    ensures |keys| == |rows|
    ensures forall i :: 0 <= i < |rows| ==> keys[i] == EntryKey(rows[i], fields)
  {
    seq(|rows|, i requires 0 <= i < |rows| => EntryKey(rows[i], fields))
  }

  /** The street that `Street(row, fields)` builds. */
  ghost predicate BuiltFrom(s: Street, row: seq<string>, fields: Fields)
    reads s, s.multiline
  {
    fields.name < |row| && fields.id < |row| && fields.geometry < |row|
    && s.name == row[fields.name] && s.uuid == row[fields.id]
    && Stored(s.multiline, row[fields.geometry])
  }

  /**
   * `getStreetsDictFromCSV`, after the header: a street per row keyed by
   * its normalised name, the last row winning among rows with the same
   * key; `None` when some row raises.
   */
  method StreetsDict(rows: seq<seq<string>>, fields: Fields) returns (d: Option<map<string, Street>>)
    ensures d.Some? <==> AllKeys(EntryKeys(rows, fields))
    ensures d.Some? ==> LastIndex(EntryKeys(rows, fields)).Some?
    ensures d.Some? ==> d.value.Keys == LastIndex(EntryKeys(rows, fields)).value.Keys
    ensures d.Some? ==> forall k :: k in d.value ==>
      fresh(d.value[k]) && fresh(d.value[k].multiline)
      && BuiltFrom(d.value[k], rows[LastIndex(EntryKeys(rows, fields)).value[k]], fields)
  {
    var keys := EntryKeys(rows, fields);
    d := StreetsByKey(rows, fields, keys);
  }

  /** The loop of the comprehension, with each row's key worked out beforehand. */
  method StreetsByKey(rows: seq<seq<string>>, fields: Fields, keys: seq<Option<string>>)
    returns (d: Option<map<string, Street>>)
    requires |keys| == |rows|
    requires forall i :: 0 <= i < |rows| && keys[i].Some? ==>
      fields.name < |rows[i]| && fields.id < |rows[i]| && fields.geometry < |rows[i]|
    ensures d.Some? <==> AllKeys(keys)
    ensures d.Some? ==> LastIndex(keys).Some?
    ensures d.Some? ==> d.value.Keys == LastIndex(keys).value.Keys
    ensures d.Some? ==> forall k :: k in d.value ==>
      fresh(d.value[k]) && fresh(d.value[k].multiline)
      && BuiltFrom(d.value[k], rows[LastIndex(keys).value[k]], fields)
  {
    LastIndexFails(keys);
    var m: map<string, Street> := map[];
    ghost var last: map<string, nat> := map[];
    var i := 0;
    while i < |rows|
      invariant 0 <= i <= |rows|
      invariant LastIndex(keys[..i]) == Some(last)
      invariant m.Keys == last.Keys
      invariant forall k :: k in m ==> last[k] < |rows|
      invariant forall k :: k in m ==>
        fresh(m[k]) && fresh(m[k].multiline) && BuiltFrom(m[k], rows[last[k]], fields)
    {
      var key := keys[i];
      if key.None? {
        return None;
      }
      var s := new Street.FromRow(rows[i], fields);
      assert keys[..i + 1][..i] == keys[..i];
      m := m[key.value := s];
      last := last[key.value := i];
      i := i + 1;
    }
    assert keys[..|rows|] == keys;
    d := Some(m);
  }
}
